/** The AI service's deterministic parts: the voice chosen for speech, the
    chat and welcome fallbacks and the cleanup of generated text, the
    fixed plan generator, the translation fallback and the two demo
    recognisers. The remote model, the speech synthesiser and the
    translation API are represented by their outcomes. */
module AiService {
  import opened Wrappers
  import opened Text

  const DefaultVoice: string := "en-US-ChristopherNeural"

  /** The voices of the languages that have their own. */
  const Voices: map<string, string> := map[
    "tr" := "tr-TR-AhmetNeural",
    "ru" := "ru-RU-DmitryNeural",
    "de" := "de-DE-ConradNeural",
    "fr" := "fr-FR-HenriNeural"]

  /** The voice selection of `generate_audio_guide`: English unless one of
      the four other languages is asked for; the voice always belongs to
      the language it is chosen for. */
  method SelectVoice(lang: string) returns (voice: string)
    ensures lang in Voices ==> voice == Voices[lang]
    ensures lang !in Voices ==> voice == DefaultVoice
    ensures StartsWith(voice, (if lang in Voices then lang else "en") + "-")
  {
    voice := DefaultVoice;
    if lang == "tr" {
      voice := "tr-TR-AhmetNeural";
    } else if lang == "ru" {
      voice := "ru-RU-DmitryNeural";
    } else if lang == "de" {
      voice := "de-DE-ConradNeural";
    } else if lang == "fr" {
      voice := "fr-FR-HenriNeural";
    }
  }

  /** What a call to the remote model gives: its text, or an exception. */
  datatype Reply = Replied(text: string) | Failed(error: string)

  const NoKeyMessage: string := "Error: Gemini API Key not configured."
  const BusyMessage: string := "My connection is very busy right now. But I can tell you that you are in the heart of history!"
  const TroubleMessage: string := "I'm having a little trouble connecting to my knowledge base right now."

  /** `get_chat_response`, given whether a key is configured and the outcome
      of the call. */
  function ChatResponse(hasKey: bool, reply: Reply): (r: string)
    ensures !hasKey ==> r == NoKeyMessage
    ensures hasKey && reply.Replied? ==> r == reply.text
    ensures hasKey && reply.Failed? ==> (r == BusyMessage <==> Contains(reply.error, "429"))
    ensures hasKey && reply.Failed? ==> r == BusyMessage || r == TroubleMessage
  {
    if !hasKey then NoKeyMessage
    else match reply
      case Replied(text) => text
      case Failed(error) => if Contains(error, "429") then BusyMessage else TroubleMessage
  }

  /** The cleanup of a generated welcome: drop code fences, asterisks,
      `>` and `</blockquote>`, in that order, then strip. */
  function CleanWelcome(text: string): string {
    Trim(RemoveAll(RemoveAll(RemoveAll(RemoveAll(text, "```"), "*"), ">"), "</blockquote>"))
  }

  /** The cleaned text holds no `*` and no `>`; the `</blockquote>` step
      never finds anything, since every `>` is gone by then. */
  lemma CleanWelcomeChars(text: string)
    ensures '*' !in CleanWelcome(text) && '>' !in CleanWelcome(text)
    ensures var s := RemoveAll(RemoveAll(RemoveAll(text, "```"), "*"), ">");
      RemoveAll(s, "</blockquote>") == s
  {
    var s1 := RemoveAll(text, "```");
    var s2 := RemoveAll(s1, "*");
    var s3 := RemoveAll(s2, ">");
    RemoveAllChar(s1, '*');
    RemoveAllChar(s2, '>');
    assert '*' !in s3;
    RemoveAllAbsent(s3, "</blockquote>", '>');
    TrimChars(s3);
  }

  const Opening: string := "Welcome to "

  /** Hand-written welcomes for the best-known monuments. */
  const FallbackData: map<string, string> := map[
    "Kalta Minor Minaret" := Opening + "the Kalta Minor Minaret. This iconic turquoise tower was intended to be the tallest minaret in the Islamic world but was never finished. Its vibrant blue tiles make it a symbol of Khiva.",
    "West Gate of Itchan Kala" := Opening + "the West Gate, also known as Ata Darvaza. This is the main entrance to the ancient fortress of Ichan Kala. Step through these gates to travel back in time.",
    "Kunta Ark Citadel" := Opening + "Kunta Ark, the fortress within a fortress. This citadel served as the residence for the Khans of Khiva and houses the throne room, harem, and old prison.",
    "Juma Mosque" := Opening + "the Juma Mosque. This unique mosque is famous for its 213 carved wooden columns, some dating back to the 10th century. Notice how the light plays through the opening in the roof.",
    "Tash Hauli Palace" := Opening + "Tash Hauli Palace, known as the Stone Palace. Explore its three main courtyards and marvel at the intricate blue tile work that adorns every surface.",
    "Pahlavan Mahmud Mausoleum" := Opening + "the Pahlavan Mahmud Mausoleum. This sacred site honors the patron saint of Khiva, a legendary poet and wrestler. It is considered one of the most beautiful spots in the city.",
    "Islam Khoja Minaret" := Opening + "the Islam Khoja Minaret. It is the tallest minaret in Khiva, standing at 57 meters. You can see its glowing bands of glazed tiles from miles away.",
    "Muhammad Amin Khan Madrasah" := Opening + "the Muhammad Amin Khan Madrasah. Historically the largest madrasah in Central Asia, it is now the Orient Star Hotel. It stands right next to the Kalta Minor."]

  /** Every hand-written welcome opens with "Welcome to ". */
  lemma FallbackOpenings()
    ensures forall k :: k in FallbackData ==> StartsWith(FallbackData[k], Opening)
  {
  }

  /** `get_welcome_message`: a plain greeting without a key, the cleaned
      generated text, or on failure the hand-written welcome or a generic
      sentence. */
  function WelcomeMessage(placeName: string, hasKey: bool, reply: Reply): (r: string)
    ensures !hasKey ==> r == "Welcome to " + placeName + "."
    ensures hasKey && reply.Replied? ==> r == CleanWelcome(reply.text)
    ensures hasKey && reply.Failed? && placeName in FallbackData ==> r == FallbackData[placeName]
    ensures hasKey && reply.Failed? && placeName !in FallbackData ==>
      r == "Welcome to " + placeName + ". This is one of the most fascinating historical sites in Ichan Kala."
  {
    if !hasKey then Opening + placeName + "."
    else match reply
      case Replied(text) => CleanWelcome(text)
      case Failed(_) =>
        if placeName in FallbackData then FallbackData[placeName]
        else Opening + placeName + ". This is one of the most fascinating historical sites in Ichan Kala."
  }

  /** Whenever the model's text is not used, the welcome opens with
      "Welcome to "; when it is used, it carries no markup characters. */
  lemma WelcomeShape(placeName: string, hasKey: bool, reply: Reply)
    ensures !(hasKey && reply.Replied?) ==> StartsWith(WelcomeMessage(placeName, hasKey, reply), Opening)
    ensures hasKey && reply.Replied? ==>
      '*' !in WelcomeMessage(placeName, hasKey, reply) && '>' !in WelcomeMessage(placeName, hasKey, reply)
  {
    if hasKey && reply.Replied? {
      CleanWelcomeChars(reply.text);
    } else if hasKey && placeName in FallbackData {
      FallbackOpenings();
    }
  }

  datatype DayPlan = DayPlan(day: int, morning: string, lunch: string, afternoon: string, dinner: string)

  datatype Itinerary = Itinerary(title: string, days: seq<DayPlan>)

  /** Every generated day has the same four activities. */
  function StandardDay(day: int): DayPlan {
    DayPlan(day, "Visit Ichan Kala basic gates", "Lunch at Terrassa Cafe", "Kunta Ark and Museums", "Dinner at local Tea House")
  }

  /** `generate_plan`: one entry per requested day (none for zero or a
      negative count, as `range` gives), numbered from 1. */
  method GeneratePlan(days: int) returns (plan: Itinerary)
    ensures plan.title == "My " + IntToString(days) + "-Day Khiva Trip"
    ensures |plan.days| == if days > 0 then days else 0
    ensures forall i :: 0 <= i < |plan.days| ==> plan.days[i] == StandardDay(i + 1)
  {
    var entries: seq<DayPlan> := [];
    var i := 0;
    while i < days
      invariant 0 <= i <= (if days > 0 then days else 0)
      invariant |entries| == i
      invariant forall j :: 0 <= j < i ==> entries[j] == StandardDay(j + 1)
    {
      entries := entries + [StandardDay(i + 1)];
      i := i + 1;
    }
    plan := Itinerary("My " + IntToString(days) + "-Day Khiva Trip", entries);
  }

  /** What the translation API gives: nothing (a network or parsing
      error), or its `translatedText` when the response carries one. */
  datatype Remote = Unreachable | Answered(translated: Option<string>)

  datatype Translation = Translation(original: string, translated: string)

  /** `translate_text`: the API's text when it is a non-empty string,
      otherwise the input tagged with the target language. */
  function TranslateText(text: string, sourceLang: string, targetLang: string, remote: Remote): (r: Translation)
    ensures r.original == text
    ensures remote.Answered? && remote.translated.Some? && remote.translated.value != [] ==>
      r.translated == remote.translated.value
    ensures !(remote.Answered? && remote.translated.Some? && remote.translated.value != []) ==>
      r.translated == "[" + targetLang + "] " + text
  {
    if remote.Answered? && remote.translated.Some? && remote.translated.value != [] then
      Translation(text, remote.translated.value)
    else
      Translation(text, "[" + targetLang + "] " + text)
  }

  /** The fallback keeps the whole input after a language tag. */
  lemma TranslateFallbackKeepsText(text: string, sourceLang: string, targetLang: string)
    ensures var t := TranslateText(text, sourceLang, targetLang, Unreachable).translated;
      t[..|targetLang| + 3] == "[" + targetLang + "] " && t[|targetLang| + 3..] == text
  {
  }

  datatype Identification = Identification(name: string, description: string, history: string, significance: string, audioUrl: string)

  const DemoIdentification := Identification(
    "Kalta Minor Minaret",
    "The unfinished turquoise minaret, symbol of Khiva.",
    "Commissioned in 1851 by Mohammed Amin Khan, intended to be the tallest in the Islamic world.",
    "A masterpiece of Khivan architecture, covered in glazed tiles.",
    "/static/audio/kalta_minor_demo.mp3")

  /** `identify_place`: the same answer for every image. */
  function IdentifyPlace(image: seq<bv8>): (r: Identification)
    ensures r.name == "Kalta Minor Minaret"
  {
    DemoIdentification
  }

  datatype ProductAnalysis = ProductAnalysis(authenticity: string, priceRange: string, details: string)

  const DemoAnalysis := ProductAnalysis(
    "Authentic Handmade",
    "$20 - $35",
    "This appears to be a genuine suzani embroidery with traditional silk threads.")

  /** `analyze_product`: the same answer for every image. */
  function AnalyzeProduct(image: seq<bv8>): (r: ProductAnalysis)
    ensures r.authenticity == "Authentic Handmade"
  {
    DemoAnalysis
  }

  /** Neither demo recogniser looks at its input. */
  lemma RecognisersConstant(a: seq<bv8>, b: seq<bv8>)
    ensures IdentifyPlace(a) == IdentifyPlace(b)
    ensures AnalyzeProduct(a) == AnalyzeProduct(b)
  {
  }
}
