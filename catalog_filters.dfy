/** What the filters of App.tsx give over the catalog of constants.ts. */
module CatalogFilters {
  import opened Wrappers
  import opened Types
  import opened Catalog
  import opened Seqs
  import opened SelectionFilter

  /** A filter over seven elements that keeps the first, second, fourth
      and fifth. */
  lemma FilterKeeps0134<T>(s: seq<T>, p: T -> bool)
    requires |s| == 7
    requires p(s[0]) && p(s[1]) && !p(s[2]) && p(s[3]) && p(s[4]) && !p(s[5]) && !p(s[6])
    ensures Filter(s, p) == [s[0], s[1], s[3], s[4]]
  {
    assert s[7..] == [];
    assert Filter(s[6..], p) == [] by { FilterStep(s, 6, p); }
    assert Filter(s[5..], p) == [] by { FilterStep(s, 5, p); }
    assert Filter(s[4..], p) == [s[4]] by { FilterStep(s, 4, p); }
    assert Filter(s[3..], p) == [s[3], s[4]] by { FilterStep(s, 3, p); }
    assert Filter(s[2..], p) == [s[3], s[4]] by { FilterStep(s, 2, p); }
    assert Filter(s[1..], p) == [s[1], s[3], s[4]] by { FilterStep(s, 1, p); }
    FilterStep(s, 0, p);
    assert s[0..] == s;
  }

  /** A filter over six elements that keeps the first two. */
  lemma FilterKeeps01<T>(s: seq<T>, p: T -> bool)
    requires |s| == 6
    requires p(s[0]) && p(s[1]) && !p(s[2]) && !p(s[3]) && !p(s[4]) && !p(s[5])
    ensures Filter(s, p) == [s[0], s[1]]
  {
    assert s[6..] == [];
    assert Filter(s[5..], p) == [] by { FilterStep(s, 5, p); }
    assert Filter(s[4..], p) == [] by { FilterStep(s, 4, p); }
    assert Filter(s[3..], p) == [] by { FilterStep(s, 3, p); }
    assert Filter(s[2..], p) == [] by { FilterStep(s, 2, p); }
    assert Filter(s[1..], p) == [s[1]] by { FilterStep(s, 1, p); }
    FilterStep(s, 0, p);
    assert s[0..] == s;
  }

  /** English, United States, narration lists Zephyr, Kore, Charon and
      Fenrir, in that order. */
  lemma EnUsNarrationVoices()
    ensures FilteredVoices("en", "us", "narration") == [VOICES[0], VOICES[1], VOICES[3], VOICES[4]]
  {
    var p := Tagged("en-us", "narration");
    assert LangAccentTag("en", "us") == "en-us";
    EnUsNarrationPicks();
    FilterKeeps0134(VOICES, p);
  }

  /** Which voices carry both the en-us and the narration tag. */
  lemma EnUsNarrationPicks()
    ensures var p := Tagged("en-us", "narration");
      p(VOICES[0]) && p(VOICES[1]) && !p(VOICES[2]) && p(VOICES[3]) && p(VOICES[4]) && !p(VOICES[5]) && !p(VOICES[6])
  {
    var p := Tagged("en-us", "narration");
    assert p(VOICES[0]) by { assert VOICES[0].tags[0] == "en-us" && VOICES[0].tags[2] == "narration"; }
    assert p(VOICES[1]) by { assert VOICES[1].tags[0] == "en-us" && VOICES[1].tags[4] == "narration"; }
    assert p(VOICES[3]) by { assert VOICES[3].tags[0] == "en-us" && VOICES[3].tags[2] == "narration"; }
    assert p(VOICES[4]) by { assert VOICES[4].tags[0] == "en-us" && VOICES[4].tags[1] == "narration"; }
  }

  /** By id: the list is Zephyr, Kore, Charon, Fenrir, and Puck, an en-us
      voice without the narration tag, is not in it. */
  lemma EnUsNarrationExcludesPuck()
    ensures |FilteredVoices("en", "us", "narration")| == 4
    ensures forall i :: 0 <= i < 4 ==>
      FilteredVoices("en", "us", "narration")[i].id == ["Zephyr", "Kore", "Charon", "Fenrir"][i]
    ensures VOICES[2].id == "Puck" && "en-us" in VOICES[2].tags
    ensures !HasVoice(FilteredVoices("en", "us", "narration"), "Puck")
  {
    EnUsNarrationVoices();
    EnUsNarrationIds();
  }

  /** The ids of the four en-us narration voices. */
  lemma EnUsNarrationIds()
    ensures var listed := [VOICES[0], VOICES[1], VOICES[3], VOICES[4]];
      (forall i :: 0 <= i < 4 ==> listed[i].id == ["Zephyr", "Kore", "Charon", "Fenrir"][i]) &&
      VOICES[2].id == "Puck" && "en-us" in VOICES[2].tags && !HasVoice(listed, "Puck")
  {
    assert VOICES[2].tags[0] == "en-us";
  }

  /** A language-accent pair has a voice of a speech type as soon as one
      catalog voice carries both tags. */
  lemma HasVoiceFor(language: string, accent: string, speechType: string, k: nat)
    requires k < |VOICES| && Tagged(LangAccentTag(language, accent), speechType)(VOICES[k])
    ensures |FilteredVoices(language, accent, speechType)| > 0
  {
    FilterWitness(VOICES, Tagged(LangAccentTag(language, accent), speechType), k);
  }

  /** The catalog accent `i` has a narration voice, voice `k`, whose tags
      `t` and `n` are its composite tag and "narration". */
  lemma NarrationVoiceAt(i: nat, k: nat, t: nat, n: nat)
    requires i < |ACCENTS| && k < |VOICES| && t < |VOICES[k].tags| && n < |VOICES[k].tags|
    requires VOICES[k].tags[t] == LangAccentTag(ACCENTS[i].languageId, ACCENTS[i].id)
    requires VOICES[k].tags[n] == "narration"
    ensures |FilteredVoices(ACCENTS[i].languageId, ACCENTS[i].id, "narration")| > 0
  {
    HasVoiceFor(ACCENTS[i].languageId, ACCENTS[i].id, "narration", k);
  }

  /** Every language-accent pair of the catalog has a narration voice. */
  lemma EveryAccentHasNarrationVoice()
    ensures forall i :: 0 <= i < |ACCENTS| ==> |FilteredVoices(ACCENTS[i].languageId, ACCENTS[i].id, "narration")| > 0
  {
    forall i | 0 <= i < |ACCENTS|
      ensures |FilteredVoices(ACCENTS[i].languageId, ACCENTS[i].id, "narration")| > 0
    {
      if i == 0 { NarrationVoiceAt(0, 1, 0, 4); }
      else if i == 1 { NarrationVoiceAt(1, 1, 1, 4); }
      else if i == 2 { NarrationVoiceAt(2, 5, 0, 2); }
      else if i == 3 { NarrationVoiceAt(3, 5, 1, 2); }
      else if i == 4 { NarrationVoiceAt(4, 6, 0, 3); }
      else { NarrationVoiceAt(5, 6, 1, 3); }
    }
  }

  /** Spanish, Spain, news has no voice, so the voice effect clears the
      selected voice. */
  lemma EsEsNewsHasNoVoice(voice: Option<string>)
    ensures FilteredVoices("es", "es", "news") == []
    ensures ReconcileVoice(FilteredVoices("es", "es", "news"), voice) == None
  {
    assert LangAccentTag("es", "es") == "es-es";
    NoEsEsNewsTags();
    FilterNone(VOICES, Tagged("es-es", "news"));
  }

  /** No catalog voice carries both the es-es and the news tag. */
  lemma NoEsEsNewsTags()
    ensures forall i :: 0 <= i < |VOICES| ==> !Tagged("es-es", "news")(VOICES[i])
  {
    forall i | 0 <= i < |VOICES| ensures !Tagged("es-es", "news")(VOICES[i]) {
      NoEsEsNewsTagAt(i);
    }
  }

  /** Voice `i` lacks the es-es or the news tag: only the Spanish voice has
      es-es, and it is not a news voice. */
  lemma NoEsEsNewsTagAt(i: nat)
    requires i < |VOICES|
    ensures !Tagged("es-es", "news")(VOICES[i])
  {
    var tags := VOICES[i].tags;
    if i == 5 {
      assert tags == ["es-es", "es-mx", "narration", "conversational"];
      assert "news" !in tags;
    } else if i == 0 {
      assert tags == ["en-us", "conversational", "narration", "assistant"];
    } else if i == 1 {
      assert tags == ["en-us", "en-gb", "news", "commercial", "narration"];
    } else if i == 2 {
      assert tags == ["en-us", "commercial", "conversational"];
    } else if i == 3 {
      assert tags == ["en-us", "en-gb", "narration", "commercial"];
    } else if i == 4 {
      assert tags == ["en-us", "narration", "commercial"];
    } else {
      assert tags == ["fr-fr", "fr-ca", "commercial", "narration"];
    }
  }

  /** English has exactly the United States and Great Britain accents, in
      that order. */
  lemma EnglishAccents()
    ensures AvailableAccents("en") == [ACCENTS[0], ACCENTS[1]]
    ensures ACCENTS[0].id == "us" && ACCENTS[1].id == "gb"
  {
    var p := OfLanguage("en");
    assert p(ACCENTS[0]) && p(ACCENTS[1]);
    assert !p(ACCENTS[2]) && !p(ACCENTS[3]) && !p(ACCENTS[4]) && !p(ACCENTS[5]);
    FilterKeeps01(ACCENTS, p);
  }
}
