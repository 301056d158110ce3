/** The static tables of constants.ts: languages, accents, speech types and
    voices, in catalog order. */
module Catalog {
  import opened Types

  const LANGUAGES: seq<Language> := [
    Language("en", "English"),
    Language("es", "Spanish"),
    Language("fr", "French")
  ]

  const ACCENTS: seq<Accent> := [
    Accent("us", "United States", "en"),
    Accent("gb", "Great Britain", "en"),
    Accent("es", "Spain", "es"),
    Accent("mx", "Mexico", "es"),
    Accent("fr", "France", "fr"),
    Accent("ca", "Canada", "fr")
  ]

  const SPEECH_TYPES: seq<SpeechType> := [
    SpeechType("narration", "Narration"),
    SpeechType("commercial", "Commercial"),
    SpeechType("conversational", "Conversational"),
    SpeechType("news", "News Anchor"),
    SpeechType("assistant", "AI Assistant")
  ]

  const VOICES: seq<Voice> := [
    Voice("Zephyr", "Zephyr", Male, "A warm, friendly, and approachable voice.",
          ["en-us", "conversational", "narration", "assistant"],
          "Hello, this is Zephyr. How can I help you today?"),
    Voice("Kore", "Kore", Female, "A clear, crisp, and professional voice.",
          ["en-us", "en-gb", "news", "commercial", "narration"],
          "This is Kore, bringing you the latest updates."),
    Voice("Puck", "Puck", Male, "An energetic and youthful voice, full of character.",
          ["en-us", "commercial", "conversational"],
          "Hey there! Puck here, ready for an adventure!"),
    Voice("Charon", "Charon", Male, "A deep, authoritative, and cinematic voice.",
          ["en-us", "en-gb", "narration", "commercial"],
          "I am Charon. Prepare for a journey into sound."),
    Voice("Fenrir", "Fenrir", Male, "A powerful and resonant voice.",
          ["en-us", "narration", "commercial"],
          "Fenrir speaking. Let my voice guide you."),
    Voice("es-voice-1", "Mateo", Male, "A warm and friendly Spanish voice.",
          ["es-es", "es-mx", "narration", "conversational"],
          "Hola, soy Mateo. ¿En qué puedo ayudarte hoy?"),
    Voice("fr-voice-1", "Chloé", Female, "An elegant and clear French voice.",
          ["fr-fr", "fr-ca", "commercial", "narration"],
          "Bonjour, je suis Chloé. Bienvenue dans notre studio.")
  ]

  /** `types.map(t => t.id)`. */
  function Ids(types: seq<SpeechType>): (r: seq<string>)
    ensures |r| == |types| && forall i :: 0 <= i < |types| ==> r[i] == types[i].id
  {
    if types == [] then [] else [types[0].id] + Ids(types[1..])
  }

  /** The speech-type ids, in catalog order. */
  const SPEECH_TYPE_IDS: seq<string> := Ids(SPEECH_TYPES)

  /** The designated default speech type, used as every fallback. */
  const DEFAULT_SPEECH_TYPE: string := SPEECH_TYPES[0].id

  predicate IsLanguageId(id: string) {
    exists i :: 0 <= i < |LANGUAGES| && LANGUAGES[i].id == id
  }

  /** `SPEECH_TYPES.some(t => t.id === id)`. */
  predicate IsSpeechTypeId(id: string) {
    exists i :: 0 <= i < |SPEECH_TYPES| && SPEECH_TYPES[i].id == id
  }

  /** The composite tag a voice carries for a language and accent. */
  function LangAccentTag(languageId: string, accentId: string): string {
    languageId + "-" + accentId
  }

  predicate IsCatalogLangAccentTag(tag: string) {
    exists i :: 0 <= i < |ACCENTS| && tag == LangAccentTag(ACCENTS[i].languageId, ACCENTS[i].id)
  }

  /** The speech-type id list is exactly the five catalog ids, in order. */
  lemma SpeechTypeIdsValue()
    ensures SPEECH_TYPE_IDS == ["narration", "commercial", "conversational", "news", "assistant"]
    ensures forall id :: id in SPEECH_TYPE_IDS <==> IsSpeechTypeId(id)
  {
  }

  /** The fallback speech type is `narration`, and it is a catalog id. */
  lemma DefaultIsNarration()
    ensures DEFAULT_SPEECH_TYPE == "narration" && IsSpeechTypeId(DEFAULT_SPEECH_TYPE)
  {
  }

  /** Every accent's language is a catalog language. */
  lemma AccentLanguagesExist()
    ensures forall i :: 0 <= i < |ACCENTS| ==> IsLanguageId(ACCENTS[i].languageId)
  {
    assert LANGUAGES[0].id == "en" && LANGUAGES[1].id == "es" && LANGUAGES[2].id == "fr";
  }

  /** No two voices share an id. */
  lemma VoiceIdsDistinct()
    ensures forall i, j :: 0 <= i < j < |VOICES| ==> VOICES[i].id != VOICES[j].id
  {
  }

  /** A tag that names a catalog language-accent pair or speech type. */
  predicate IsCatalogTag(tag: string) {
    IsCatalogLangAccentTag(tag) || IsSpeechTypeId(tag)
  }

  /** The tags the voices use, one by one. */
  lemma UsedTagsAreCatalogTags()
    ensures IsCatalogTag("en-us") && IsCatalogTag("en-gb") && IsCatalogTag("es-es")
    ensures IsCatalogTag("es-mx") && IsCatalogTag("fr-fr") && IsCatalogTag("fr-ca")
    ensures IsCatalogTag("narration") && IsCatalogTag("commercial") && IsCatalogTag("conversational")
    ensures IsCatalogTag("news") && IsCatalogTag("assistant")
  {
    assert "en-us" == LangAccentTag(ACCENTS[0].languageId, ACCENTS[0].id);
    assert "en-gb" == LangAccentTag(ACCENTS[1].languageId, ACCENTS[1].id);
    assert "es-es" == LangAccentTag(ACCENTS[2].languageId, ACCENTS[2].id);
    assert "es-mx" == LangAccentTag(ACCENTS[3].languageId, ACCENTS[3].id);
    assert "fr-fr" == LangAccentTag(ACCENTS[4].languageId, ACCENTS[4].id);
    assert "fr-ca" == LangAccentTag(ACCENTS[5].languageId, ACCENTS[5].id);
    assert SPEECH_TYPES[0].id == "narration";
    assert SPEECH_TYPES[1].id == "commercial";
    assert SPEECH_TYPES[2].id == "conversational";
    assert SPEECH_TYPES[3].id == "news";
    assert SPEECH_TYPES[4].id == "assistant";
  }

  /** The tags of voice `i` are catalog tags. */
  lemma VoiceTagsAt(i: nat)
    requires i < |VOICES|
    ensures forall k :: 0 <= k < |VOICES[i].tags| ==> IsCatalogTag(VOICES[i].tags[k])
  {
    UsedTagsAreCatalogTags();
    var tags := VOICES[i].tags;
    if i == 0 {
      assert tags == ["en-us", "conversational", "narration", "assistant"];
    } else if i == 1 {
      assert tags == ["en-us", "en-gb", "news", "commercial", "narration"];
    } else if i == 2 {
      assert tags == ["en-us", "commercial", "conversational"];
    } else if i == 3 {
      assert tags == ["en-us", "en-gb", "narration", "commercial"];
    } else if i == 4 {
      assert tags == ["en-us", "narration", "commercial"];
    } else if i == 5 {
      assert tags == ["es-es", "es-mx", "narration", "conversational"];
    } else {
      assert tags == ["fr-fr", "fr-ca", "commercial", "narration"];
    }
  }

  /** Every tag a voice carries is a catalog language-accent tag or a
      catalog speech-type id. */
  lemma VoiceTagsWellFormed()
    ensures forall i, k :: 0 <= i < |VOICES| && 0 <= k < |VOICES[i].tags| ==> IsCatalogTag(VOICES[i].tags[k])
  {
    forall i | 0 <= i < |VOICES|
      ensures forall k :: 0 <= k < |VOICES[i].tags| ==> IsCatalogTag(VOICES[i].tags[k])
    {
      VoiceTagsAt(i);
    }
  }
}
