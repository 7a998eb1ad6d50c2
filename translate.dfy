/** The live translator page: a language pair, the text heard,
    and its translation. The translation request and the browser's speech
    recognition are represented by their outcomes. */
module Translate {
  import opened Wrappers
  import opened Text

  /** One entry of the supported-language table. */
  datatype Language = Language(code: string, name: string, speechCode: string)

  const SupportedLanguages: seq<Language> := [
    Language("en", "English", "en-US"),
    Language("tr", "Türkçe", "tr-TR"),
    Language("ru", "Русский", "ru-RU"),
    Language("de", "Deutsch", "de-DE"),
    Language("fr", "Français", "fr-FR")]

  const DefaultSpeechCode: string := "en-US"
  const ErrorMessage: string := "Error translating text."

  /** `SUPPORTED_LANGUAGES.find(l => l.code === code)`. */
  function FindLanguage(langs: seq<Language>, code: string): (k: Option<nat>)
    ensures k.None? <==> forall i :: 0 <= i < |langs| ==> langs[i].code != code
    ensures k.Some? ==> (k.value < |langs| && langs[k.value].code == code &&
      forall i :: 0 <= i < k.value ==> langs[i].code != code)
  {
    if langs == [] then None
    else if langs[0].code == code then Some(0)
    else
      var k := FindLanguage(langs[1..], code);
      if k.Some? then Some(k.value + 1) else None
  }

  /** The recognition language: the speech code of the source language,
      or US English when the language is not in the table (or its code is
      empty, as `||` would have it). */
  function SpeechCode(code: string): (r: string)
    ensures r != []
  {
    match FindLanguage(SupportedLanguages, code)
    case None => DefaultSpeechCode
    case Some(k) => if SupportedLanguages[k].speechCode != [] then SupportedLanguages[k].speechCode else DefaultSpeechCode
  }

  /** Each supported language is heard in its own regional variant; any
      other code falls back to US English. */
  lemma SpeechCodes(code: string)
    ensures code == "en" ==> SpeechCode(code) == "en-US"
    ensures code == "tr" ==> SpeechCode(code) == "tr-TR"
    ensures code == "ru" ==> SpeechCode(code) == "ru-RU"
    ensures code == "de" ==> SpeechCode(code) == "de-DE"
    ensures code == "fr" ==> SpeechCode(code) == "fr-FR"
    ensures code !in {"en", "tr", "ru", "de", "fr"} ==> SpeechCode(code) == DefaultSpeechCode
    ensures StartsWith(SpeechCode(code), (if code in {"en", "tr", "ru", "de", "fr"} then code else "en") + "-")
  {
    var k := FindLanguage(SupportedLanguages, code);
    if k.Some? {
      assert SupportedLanguages[k.value].code == code;
    } else {
      assert forall i :: 0 <= i < 5 ==> SupportedLanguages[i].code != code;
      assert SupportedLanguages[0].code == "en";
      assert SupportedLanguages[1].code == "tr";
      assert SupportedLanguages[2].code == "ru";
      assert SupportedLanguages[3].code == "de";
      assert SupportedLanguages[4].code == "fr";
    }
  }

  /** The request `handleTranslate` sends. */
  datatype Request = Request(text: string, source: string, target: string)

  class TranslatePage {
    var isRecording: bool
    var sourceText: string
    var translatedText: string
    var isTranslating: bool
    var srcLang: string
    var tgtLang: string

    /** Turkish to English, nothing heard yet. */
    constructor ()
      ensures srcLang == "tr" && tgtLang == "en"
      ensures sourceText == "" && translatedText == "" && !isTranslating && !isRecording
    {
      isRecording := false;
      sourceText := "";
      translatedText := "";
      isTranslating := false;
      srcLang := "tr";
      tgtLang := "en";
    }

    /** `swapLanguages`: the pair is reversed and both texts are cleared. */
    method SwapLanguages()
      modifies this
      ensures srcLang == old(tgtLang) && tgtLang == old(srcLang)
      ensures sourceText == "" && translatedText == ""
      ensures isTranslating == old(isTranslating) && isRecording == old(isRecording)
    {
      var src, tgt := srcLang, tgtLang;
      srcLang := tgt;
      tgtLang := src;
      sourceText := "";
      translatedText := "";
    }

    /** The source-language select. */
    method SetSrcLang(code: string)
      modifies this
      ensures srcLang == code && tgtLang == old(tgtLang)
      ensures sourceText == old(sourceText) && translatedText == old(translatedText)
      ensures isTranslating == old(isTranslating) && isRecording == old(isRecording)
    {
      srcLang := code;
    }

    /** The target-language select. */
    method SetTgtLang(code: string)
      modifies this
      ensures tgtLang == code && srcLang == old(srcLang)
      ensures sourceText == old(sourceText) && translatedText == old(translatedText)
      ensures isTranslating == old(isTranslating) && isRecording == old(isRecording)
    {
      tgtLang := code;
    }

    /** `handleTranslate`, with the request's outcome: the translated text,
        or None when the call throws. Blank text sends nothing. */
    method HandleTranslate(text: string, reply: Option<string>) returns (sent: Option<Request>)
      modifies this
      ensures srcLang == old(srcLang) && tgtLang == old(tgtLang) && isRecording == old(isRecording)
      ensures Trim(text) == [] ==> (sent.None? &&
        sourceText == old(sourceText) && translatedText == old(translatedText) && isTranslating == old(isTranslating))
      ensures Trim(text) != [] ==> (sent == Some(Request(text, srcLang, tgtLang)) &&
        sourceText == text && !isTranslating &&
        translatedText == (if reply.Some? then reply.value else ErrorMessage))
    {
      if Trim(text) == [] {
        return None;
      }
      isTranslating := true;
      sourceText := text;
      sent := Some(Request(text, srcLang, tgtLang));
      match reply
      case Some(translated) =>
        translatedText := translated;
        isTranslating := false;
      case None =>
        translatedText := ErrorMessage;
        isTranslating := false;
    }

    /** `startListening`: the language a new recognition is configured
        with, or None when the browser has no speech recognition. */
    method StartListening(available: bool) returns (recognitionLang: Option<string>)
      ensures available ==> recognitionLang == Some(SpeechCode(srcLang))
      ensures !available ==> recognitionLang.None?
    {
      if !available {
        return None;
      }
      var k := FindLanguage(SupportedLanguages, srcLang);
      var speechCode := if k.Some? then SupportedLanguages[k.value].speechCode else "";
      recognitionLang := Some(if speechCode != "" then speechCode else DefaultSpeechCode);
    }

    /** `toggleRecording`, the microphone button: while recording it stops
        the recognition and turns recording off; otherwise it starts
        listening and returns the language the recognition is given. */
    method ToggleRecording(available: bool) returns (recognitionLang: Option<string>)
      modifies this
      ensures old(isRecording) ==> recognitionLang.None? && !isRecording
      ensures !old(isRecording) && available ==> recognitionLang == Some(SpeechCode(srcLang))
      ensures !old(isRecording) && !available ==> recognitionLang.None?
      ensures !old(isRecording) ==> isRecording == old(isRecording)
      ensures sourceText == old(sourceText) && translatedText == old(translatedText)
      ensures srcLang == old(srcLang) && tgtLang == old(tgtLang) && isTranslating == old(isTranslating)
    {
      if isRecording {
        OnRecognitionEnd();
        return None;
      }
      recognitionLang := StartListening(available);
    }

    /** The recognition started: both texts are cleared. */
    method OnRecognitionStart()
      modifies this
      ensures isRecording && sourceText == "" && translatedText == ""
      ensures srcLang == old(srcLang) && tgtLang == old(tgtLang) && isTranslating == old(isTranslating)
    {
      isRecording := true;
      sourceText := "";
      translatedText := "";
    }

    /** A transcript arrived: it is shown and translated. */
    method OnRecognitionResult(transcript: string, reply: Option<string>) returns (sent: Option<Request>)
      modifies this
      ensures srcLang == old(srcLang) && tgtLang == old(tgtLang) && isRecording == old(isRecording)
      ensures sourceText == transcript
      ensures Trim(transcript) == [] ==> (sent.None? &&
        translatedText == old(translatedText) && isTranslating == old(isTranslating))
      ensures Trim(transcript) != [] ==> (sent == Some(Request(transcript, srcLang, tgtLang)) && !isTranslating &&
        translatedText == (if reply.Some? then reply.value else ErrorMessage))
    {
      sourceText := transcript;
      sent := HandleTranslate(transcript, reply);
    }

    /** The recognition ended, or the microphone button stopped it. */
    method OnRecognitionEnd()
      modifies this
      ensures !isRecording
      ensures sourceText == old(sourceText) && translatedText == old(translatedText)
      ensures srcLang == old(srcLang) && tgtLang == old(tgtLang) && isTranslating == old(isTranslating)
    {
      isRecording := false;
    }
  }

  /** Swapping twice restores the language pair (and leaves the texts
      empty). */
  method SwapTwice(page: TranslatePage)
    modifies page
    ensures page.srcLang == old(page.srcLang) && page.tgtLang == old(page.tgtLang)
    ensures page.sourceText == "" && page.translatedText == ""
  {
    page.SwapLanguages();
    page.SwapLanguages();
  }

  /** A fresh page sends Turkish to English and listens for Turkish. */
  method FirstRequest(text: string, reply: Option<string>) returns (sent: Option<Request>, lang: Option<string>)
    requires Trim(text) != []
    ensures sent == Some(Request(text, "tr", "en"))
    ensures lang == Some("tr-TR")
  {
    var page := new TranslatePage();
    lang := page.StartListening(true);
    SpeechCodes("tr");
    sent := page.HandleTranslate(text, reply);
  }
}
