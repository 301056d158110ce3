/** The pure part of App.tsx: the accent and voice lists derived from the
    selection, the two reconciliation effects, and the effect cycle React
    runs after a selection changes. */
module SelectionFilter {
  import opened Wrappers
  import opened Types
  import opened Catalog
  import opened Seqs

  /** The user's selection: `text`, `selectedLanguage`, `selectedAccent`,
      `selectedSpeechType` and the nullable `selectedVoice`. */
  datatype Selection = Selection(
    text: string,
    language: string,
    accent: string,
    speechType: string,
    voice: Option<string>)

  /** `availableAccents`: the catalog accents of `language`, in catalog order. */
  function AvailableAccents(language: string): (r: seq<Accent>)
    ensures |r| <= |ACCENTS|
    ensures forall i :: 0 <= i < |r| ==> r[i] in ACCENTS && r[i].languageId == language
  {
    FilterMembers(ACCENTS, OfLanguage(language));
    Filter(ACCENTS, OfLanguage(language))
  }

  /** The `filter` callback of `availableAccents`. */
  function OfLanguage(language: string): Accent -> bool {
    (a: Accent) => a.languageId == language
  }

  /** `filteredVoices`: the catalog voices tagged with both the composite
      "{language}-{accent}" tag and the speech type, in catalog order. */
  function FilteredVoices(language: string, accent: string, speechType: string): (r: seq<Voice>)
    ensures |r| <= |VOICES|
    ensures forall i :: 0 <= i < |r| ==>
      r[i] in VOICES && LangAccentTag(language, accent) in r[i].tags && speechType in r[i].tags
  {
    FilterMembers(VOICES, Tagged(LangAccentTag(language, accent), speechType));
    Filter(VOICES, Tagged(LangAccentTag(language, accent), speechType))
  }

  /** The `filter` callback of `filteredVoices`. */
  function Tagged(tag: string, speechType: string): Voice -> bool {
    (v: Voice) => tag in v.tags && speechType in v.tags
  }

  /** `accents.some(a => a.id === id)`. */
  predicate HasAccent(accents: seq<Accent>, id: string) {
    exists i :: 0 <= i < |accents| && accents[i].id == id
  }

  /** `voices.some(v => v.id === id)`. */
  predicate HasVoice(voices: seq<Voice>, id: string) {
    exists i :: 0 <= i < |voices| && voices[i].id == id
  }

  /** The accent effect: an accent missing from a non-empty list is replaced
      by the list's first accent; otherwise it is kept. */
  function ReconcileAccent(available: seq<Accent>, accent: string): (r: string)
    ensures |available| > 0 ==> HasAccent(available, r)
    ensures |available| == 0 || HasAccent(available, accent) ==> r == accent
    ensures r != accent ==> r == available[0].id
  {
    if |available| > 0 && !HasAccent(available, accent) then available[0].id else accent
  }

  /** The voice effect: no voice for an empty list; otherwise a voice of the
      list, which is the selected one when it is in the list and the first
      one when it is not. */
  function ReconcileVoice(voices: seq<Voice>, voice: Option<string>): (r: Option<string>)
    ensures r.None? <==> |voices| == 0
    ensures r.Some? ==> HasVoice(voices, r.value)
    ensures voice.Some? && HasVoice(voices, voice.value) ==> r == voice
    ensures r != voice && |voices| > 0 ==> r == Some(voices[0].id)
  {
    if |voices| > 0 && !(voice.Some? && HasVoice(voices, voice.value)) then Some(voices[0].id)
    else if |voices| == 0 then None
    else voice
  }

  /** The selection invariant: the accent belongs to the language whenever
      the language has accents, and the voice is null exactly when no voice
      matches and a matching voice otherwise. */
  predicate Consistent(sel: Selection) {
    var accents := AvailableAccents(sel.language);
    var voices := FilteredVoices(sel.language, sel.accent, sel.speechType);
    (|accents| > 0 ==> HasAccent(accents, sel.accent)) &&
    (sel.voice.None? <==> |voices| == 0) &&
    (sel.voice.Some? ==> HasVoice(voices, sel.voice.value))
  }

  /** The effects of one commit, as React runs them on the rendered
      selection `cur` after the previous render `prev`: the accent effect
      when `availableAccents` or `selectedAccent` changed, the voice effect
      when `filteredVoices` changed. Both read the values of this render. */
  function Commit(prev: Selection, cur: Selection): (r: Selection)
    ensures r.text == cur.text && r.language == cur.language && r.speechType == cur.speechType
    ensures cur.language == prev.language && cur.accent == prev.accent ==> r.accent == cur.accent
    ensures cur.language != prev.language || cur.accent != prev.accent ==>
      |AvailableAccents(cur.language)| > 0 ==> HasAccent(AvailableAccents(cur.language), r.accent)
    ensures cur.language == prev.language && cur.accent == prev.accent && cur.speechType == prev.speechType ==>
      r.voice == cur.voice
    ensures cur.language != prev.language || cur.accent != prev.accent || cur.speechType != prev.speechType ==>
      (r.voice.None? <==> |FilteredVoices(cur.language, cur.accent, cur.speechType)| == 0) &&
      (r.voice.Some? ==> HasVoice(FilteredVoices(cur.language, cur.accent, cur.speechType), r.voice.value))
  {
    var accentRuns := cur.language != prev.language || cur.accent != prev.accent;
    var voiceRuns := cur.language != prev.language || cur.accent != prev.accent ||
                     cur.speechType != prev.speechType;
    var accent := if accentRuns then ReconcileAccent(AvailableAccents(cur.language), cur.accent) else cur.accent;
    var voice := if voiceRuns then ReconcileVoice(FilteredVoices(cur.language, cur.accent, cur.speechType), cur.voice)
                 else cur.voice;
    cur.(accent := accent, voice := voice)
  }

  /** The selection after a change from the settled `prev` to `cur`: the
      commit of `cur`, then the commit of what that commit produced. */
  function Settle(prev: Selection, cur: Selection): (r: Selection)
    ensures r.text == cur.text && r.language == cur.language && r.speechType == cur.speechType
  {
    var next := Commit(prev, cur);
    Commit(cur, next)
  }

  /** A change of language, accent or speech type (not of the voice) from a
      consistent selection settles, within two commits, on a consistent
      selection that triggers no further effect. */
  lemma SettleConsistent(prev: Selection, cur: Selection)
    requires Consistent(prev) && cur.voice == prev.voice
    ensures Consistent(Settle(prev, cur))
    ensures Commit(Commit(prev, cur), Settle(prev, cur)) == Settle(prev, cur)
    ensures cur.language == prev.language && cur.accent == prev.accent && cur.speechType == prev.speechType
            ==> Settle(prev, cur) == cur
  {
    var next := Commit(prev, cur);
    var fin := Commit(cur, next);
    var accents := AvailableAccents(cur.language);
    if next.accent != cur.accent {
      ReconcileAccentIdempotent(accents, cur.accent);
    }
    assert fin.accent == next.accent;
  }

  /** Reconciling the accent twice is reconciling it once. */
  lemma ReconcileAccentIdempotent(available: seq<Accent>, accent: string)
    ensures ReconcileAccent(available, ReconcileAccent(available, accent)) == ReconcileAccent(available, accent)
  {
  }

  /** Reconciling the voice twice is reconciling it once. */
  lemma ReconcileVoiceIdempotent(voices: seq<Voice>, voice: Option<string>)
    ensures ReconcileVoice(voices, ReconcileVoice(voices, voice)) == ReconcileVoice(voices, voice)
  {
  }

  /** When the accent effect replaces the accent, the new one is that of the
      first catalog accent of the language, in table order. */
  lemma AccentEffectTakesFirstOfLanguage(language: string, accent: string)
    requires ReconcileAccent(AvailableAccents(language), accent) != accent
    ensures exists k :: 0 <= k < |ACCENTS| && ACCENTS[k].languageId == language &&
                      ReconcileAccent(AvailableAccents(language), accent) == ACCENTS[k].id &&
                      forall j :: 0 <= j < k ==> ACCENTS[j].languageId != language
  {
    FilterHeadIsFirstMatch(ACCENTS, OfLanguage(language));
  }

  /** When the voice effect replaces the voice by a voice, that voice is the
      first catalog voice, in table order, carrying both tags. */
  lemma VoiceEffectTakesFirstMatch(language: string, accent: string, speechType: string, voice: Option<string>)
    requires ReconcileVoice(FilteredVoices(language, accent, speechType), voice) != voice
    requires |FilteredVoices(language, accent, speechType)| > 0
    ensures exists k :: 0 <= k < |VOICES| &&
                      LangAccentTag(language, accent) in VOICES[k].tags && speechType in VOICES[k].tags &&
                      ReconcileVoice(FilteredVoices(language, accent, speechType), voice) == Some(VOICES[k].id) &&
                      forall j :: 0 <= j < k ==>
                        !(LangAccentTag(language, accent) in VOICES[j].tags && speechType in VOICES[j].tags)
  {
    FilterHeadIsFirstMatch(VOICES, Tagged(LangAccentTag(language, accent), speechType));
  }

  /** `availableAccents` is exactly the accents of the language, in catalog
      order: an accent is listed iff it is a catalog accent of that language. */
  lemma AvailableAccentsExact(language: string)
    ensures forall a :: a in AvailableAccents(language) <==> a in ACCENTS && a.languageId == language
  {
    var p := OfLanguage(language);
    FilterMembers(ACCENTS, p);
    forall a ensures a in AvailableAccents(language) <==> a in ACCENTS && a.languageId == language {
      if a in AvailableAccents(language) {
        var i :| 0 <= i < |AvailableAccents(language)| && AvailableAccents(language)[i] == a;
        assert p(a);
      }
      if a in ACCENTS && a.languageId == language {
        var i :| 0 <= i < |ACCENTS| && ACCENTS[i] == a;
        assert p(ACCENTS[i]);
      }
    }
  }

  /** `filteredVoices` is exactly the voices carrying both tags. */
  lemma FilteredVoicesExact(language: string, accent: string, speechType: string)
    ensures forall v :: v in FilteredVoices(language, accent, speechType) <==>
      v in VOICES && LangAccentTag(language, accent) in v.tags && speechType in v.tags
  {
    var tag := LangAccentTag(language, accent);
    var p := Tagged(tag, speechType);
    FilterMembers(VOICES, p);
    forall v ensures v in FilteredVoices(language, accent, speechType) <==> v in VOICES && p(v) {
      if v in FilteredVoices(language, accent, speechType) {
        var i :| 0 <= i < |FilteredVoices(language, accent, speechType)| && FilteredVoices(language, accent, speechType)[i] == v;
        assert p(v);
      }
      if v in VOICES && p(v) {
        var i :| 0 <= i < |VOICES| && VOICES[i] == v;
        assert p(VOICES[i]);
      }
    }
  }

  /** The first commit after mounting runs both effects. */
  function MountCommit(cur: Selection): (r: Selection)
    ensures r.text == cur.text && r.language == cur.language && r.speechType == cur.speechType
    ensures |AvailableAccents(cur.language)| > 0 ==> HasAccent(AvailableAccents(cur.language), r.accent)
    ensures r.voice.None? <==> |FilteredVoices(cur.language, cur.accent, cur.speechType)| == 0
  {
    cur.(accent := ReconcileAccent(AvailableAccents(cur.language), cur.accent),
         voice := ReconcileVoice(FilteredVoices(cur.language, cur.accent, cur.speechType), cur.voice))
  }

  /** The selection once the mount's effects have settled. */
  function Mounted(initial: Selection): (r: Selection)
    ensures r.text == initial.text && r.language == initial.language && r.speechType == initial.speechType
    ensures |AvailableAccents(initial.language)| > 0 ==> HasAccent(AvailableAccents(initial.language), r.accent)
  {
    Commit(initial, MountCommit(initial))
  }

  /** Whatever the initial selection, the mount settles on a consistent
      selection that triggers no further effect. */
  lemma MountedConsistent(initial: Selection)
    ensures Consistent(Mounted(initial))
    ensures Commit(MountCommit(initial), Mounted(initial)) == Mounted(initial)
  {
    var next := MountCommit(initial);
    if next.accent != initial.accent {
      ReconcileAccentIdempotent(AvailableAccents(initial.language), initial.accent);
    }
  }
}
