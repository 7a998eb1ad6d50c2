/** The translation context: five locale dictionaries, a dotted-key lookup
    `t` that falls back to English for the whole key and then to the key
    itself, and the locale chosen at start-up and persisted on change. */
module I18n {
  import opened Wrappers
  import opened Text

  datatype Locale = En | Tr | Ru | De | Fr {
    function Code(): string {
      match this
      case En => "en"
      case Tr => "tr"
      case Ru => "ru"
      case De => "de"
      case Fr => "fr"
    }
  }

  /** `dictionaries[code]` is defined exactly for the five locale codes. */
  function LocaleOf(code: string): (r: Option<Locale>)
    ensures r.Some? ==> r.value.Code() == code
    ensures r.None? ==> forall l: Locale :: l.Code() != code
  {
    if code == "en" then Some(En)
    else if code == "tr" then Some(Tr)
    else if code == "ru" then Some(Ru)
    else if code == "de" then Some(De)
    else if code == "fr" then Some(Fr)
    else None
  }

  /** A JSON value of a locale file: a string leaf, a nested object, or
      anything else (number, boolean, array, null). */
  datatype Dict = Str(s: string) | Obj(entries: map<string, Dict>) | Other

  /** The value reached by following `keys` one segment at a time, or None
      at the first segment that is not a member of an object. */
  function Resolve(d: Dict, keys: seq<string>): Option<Dict>
    decreases keys
  {
    if keys == [] then Some(d)
    else if d.Obj? && keys[0] in d.entries then Resolve(d.entries[keys[0]], keys[1..])
    else None
  }

  /** What `t(key)` returns with `active` as the current dictionary. */
  function Translate(active: Dict, en: Dict, key: string): string
  {
    var keys := Split(key, '.');
    match Resolve(active, keys)
    case Some(v) => if v.Str? then v.s else key
    case None =>
      match Resolve(en, keys)
      case Some(Str(s)) => s
      case _ => key
  }

  /** A string reachable in `d` along some path. */
  ghost predicate IsLeafOf(d: Dict, s: string) {
    exists keys :: Resolve(d, keys) == Some(Str(s))
  }

  /** A key that resolves to a string in the active dictionary gives that string. */
  lemma TranslateFound(active: Dict, en: Dict, key: string, s: string)
    requires Resolve(active, Split(key, '.')) == Some(Str(s))
    ensures Translate(active, en, key) == s
  {
  }

  /** A key that resolves to a non-string in the active dictionary gives the
      key back, without looking at English. */
  lemma TranslateNotAString(active: Dict, en: Dict, key: string)
    requires Resolve(active, Split(key, '.')).Some? && !Resolve(active, Split(key, '.')).value.Str?
    ensures Translate(active, en, key) == key
  {
  }

  /** A key missing from the active dictionary is looked up again, whole,
      from the English root. */
  lemma TranslateFallsBack(active: Dict, en: Dict, key: string)
    requires Resolve(active, Split(key, '.')).None?
    ensures Resolve(en, Split(key, '.')).Some? && Resolve(en, Split(key, '.')).value.Str? ==>
      Translate(active, en, key) == Resolve(en, Split(key, '.')).value.s
    ensures !(Resolve(en, Split(key, '.')).Some? && Resolve(en, Split(key, '.')).value.Str?) ==>
      Translate(active, en, key) == key
  {
  }

  /** `t` never invents text: it returns a string leaf of the active or of
      the English dictionary, or the key. */
  lemma TranslateIsLeafOrKey(active: Dict, en: Dict, key: string)
    ensures var r := Translate(active, en, key);
      r == key || IsLeafOf(active, r) || IsLeafOf(en, r)
  {
    var keys := Split(key, '.');
    var r := Translate(active, en, key);
    match Resolve(active, keys)
    case Some(v) =>
      if v.Str? { assert Resolve(active, keys) == Some(Str(r)); }
    case None =>
      match Resolve(en, keys)
      case Some(Str(s)) => assert Resolve(en, keys) == Some(Str(r));
      case _ =>
  }

  const StorageKey: string := "app-locale"

  /** `LanguageProvider`'s state: the current locale, whether start-up ran,
      and the part of `localStorage` it touches. */
  class LanguageProvider {
    const dictionaries: Locale -> Dict
    var locale: Locale
    var isLoaded: bool
    var storage: map<string, string>

    constructor (dictionaries: Locale -> Dict, storage: map<string, string>)
      ensures this.dictionaries == dictionaries && this.storage == storage
      ensures locale == En && !isLoaded
    {
      this.dictionaries := dictionaries;
      this.storage := storage;
      locale := En;
      isLoaded := false;
    }

    /** The mount effect: a supported saved locale wins, then a supported
        browser language prefix (before the first '-'), else the locale is
        left as it is ('en' from the constructor). */
    method Init(browserLanguage: string)
      modifies this
      ensures isLoaded && storage == old(storage)
      ensures StorageKey in storage && LocaleOf(storage[StorageKey]).Some? ==>
        locale == LocaleOf(storage[StorageKey]).value
      ensures (!(StorageKey in storage && LocaleOf(storage[StorageKey]).Some?) &&
               LocaleOf(Split(browserLanguage, '-')[0]).Some?) ==>
        locale == LocaleOf(Split(browserLanguage, '-')[0]).value
      ensures (!(StorageKey in storage && LocaleOf(storage[StorageKey]).Some?) &&
               LocaleOf(Split(browserLanguage, '-')[0]).None?) ==> locale == old(locale)
    {
      var saved := if StorageKey in storage then Some(storage[StorageKey]) else None;
      if saved.Some? && saved.value != [] && LocaleOf(saved.value).Some? {
        locale := LocaleOf(saved.value).value;
      } else {
        var browserLang := Split(browserLanguage, '-')[0];
        if LocaleOf(browserLang).Some? {
          locale := LocaleOf(browserLang).value;
        }
      }
      isLoaded := true;
    }

    /** `setLocale`: switch and persist exactly that code under 'app-locale'. */
    method SetLocale(newLocale: Locale)
      modifies this
      ensures locale == newLocale
      ensures storage == old(storage)[StorageKey := newLocale.Code()]
      ensures isLoaded == old(isLoaded)
    {
      locale := newLocale;
      storage := storage[StorageKey := newLocale.Code()];
    }

    /** `t(key)`: walk the active dictionary segment by segment; at the
        first missing segment walk English from the root for the whole key. */
    method T(key: string) returns (r: string)
      ensures r == Translate(dictionaries(locale), dictionaries(En), key)
    {
      var keys := Split(key, '.');
      var value := dictionaries(locale);
      var i := 0;
      while i < |keys|
        invariant 0 <= i <= |keys|
        invariant Resolve(dictionaries(locale), keys) == Resolve(value, keys[i..])
      {
        var k := keys[i];
        if value.Obj? && k in value.entries {
          value := value.entries[k];
        } else {
          var fallback := dictionaries(En);
          var j := 0;
          while j < |keys|
            invariant 0 <= j <= |keys|
            invariant Resolve(dictionaries(En), keys) == Resolve(fallback, keys[j..])
          {
            var fk := keys[j];
            if fallback.Obj? && fk in fallback.entries {
              fallback := fallback.entries[fk];
            } else {
              return key;
            }
            j := j + 1;
          }
          return if fallback.Str? then fallback.s else key;
        }
        i := i + 1;
      }
      r := if value.Str? then value.s else key;
    }
  }
}
