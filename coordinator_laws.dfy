/** The invariant the coordinator keeps from mount on, and the laws of its
    events. */
module CoordinatorLaws {
  import opened Wrappers
  import opened Types
  import opened Catalog
  import opened Seqs
  import opened JsString
  import opened GeminiService
  import opened SelectionFilter
  import opened CatalogFilters
  import opened Coordinator

  /** A closure that captured a `previewState` for its own voice. */
  predicate SelfCapture(voiceId: string, captured: Option<PreviewState>) {
    captured.Some? && captured.value.id == voiceId
  }

  /** Sources handed out so far have handles below `nextSource`. */
  predicate Issued(s: AppState, src: Option<Source>) {
    src.Some? ==> src.value.handle < s.nextSource
  }

  /** The generation flag is set exactly while a `handleGenerate` call is
      awaited, and at most one is. */
  predicate GenerationTracked(s: AppState) {
    (s.isGenerating <==> Count(s.inFlight, IsMain) > 0) && Count(s.inFlight, IsMain) <= 1
  }

  /** Timer ids are positive and below `nextTimer`, and every armed timer
      is the one the ref names. */
  predicate TimerIds(s: AppState) {
    s.nextTimer > 0 &&
    (s.timerRef.Some? ==> 0 < s.timerRef.value < s.nextTimer) &&
    (forall id :: id in s.timers ==> s.timerRef == Some(id))
  }

  /** ... and the armed timer captured the current text, which is longer
      than 20 characters once trimmed. */
  predicate DebounceTracked(s: AppState) {
    TimerIds(s) &&
    (forall id :: id in s.timers ==> s.timers[id] == s.sel.text && LongText(s.sel.text))
  }

  /** A playing channel has its source in the ref, and every source the
      model knows of was handed out. */
  predicate AudioTracked(s: AppState) {
    (s.main == MainPlaying ==> s.mainSource.Some?) &&
    (s.preview.Some? && s.preview.value.status == Playing ==> s.previewSource.Some?) &&
    Issued(s, s.previewSource) && Issued(s, s.mainSource) &&
    (forall src :: src in s.handlers ==> src.handle < s.nextSource) &&
    (forall src :: src in s.handlers && s.handlers[src].PreviewEnded? ==>
       !SelfCapture(s.handlers[src].voiceId, s.handlers[src].captured))
  }

  /** No awaited preview captured a `previewState` for its own voice. */
  predicate Uncaptured(calls: seq<Pending>) {
    forall k :: 0 <= k < |calls| && calls[k].PendingPreview? ==>
      !SelfCapture(calls[k].voice.id, calls[k].captured)
  }

  /** The selection the effects settle on: consistent, with a catalog
      speech type. */
  predicate Settled(sel: Selection) {
    Consistent(sel) && IsSpeechTypeId(sel.speechType)
  }

  /** Every part of the invariant but the selection's. */
  predicate Bookkeeping(s: AppState) {
    GenerationTracked(s) && DebounceTracked(s) && AudioTracked(s) && Uncaptured(s.inFlight)
  }

  predicate Invariant(s: AppState) {
    Settled(s.sel) && Bookkeeping(s)
  }

  /** An event that leaves the selection alone keeps the invariant when it
      keeps the bookkeeping. */
  lemma SameSelection(s: AppState, r: AppState)
    requires Invariant(s) && Bookkeeping(r) && r.sel == s.sel
    ensures Invariant(r)
  {
  }

  /** The debounce part depends on the text and the timer fields only. */
  lemma DebounceFrame(s: AppState, r: AppState)
    requires DebounceTracked(s)
    requires r.sel.text == s.sel.text && r.timers == s.timers && r.timerRef == s.timerRef && r.nextTimer == s.nextTimer
    ensures DebounceTracked(r)
  {
  }

  lemma UncapturedAppend(calls: seq<Pending>, p: Pending)
    requires Uncaptured(calls) && (p.PendingPreview? ==> !SelfCapture(p.voice.id, p.captured))
    ensures Uncaptured(calls + [p])
  {
    forall k | 0 <= k < |calls + [p]| && (calls + [p])[k].PendingPreview?
      ensures !SelfCapture((calls + [p])[k].voice.id, (calls + [p])[k].captured)
    {
      if k < |calls| { assert (calls + [p])[k] == calls[k]; }
    }
  }

  /** Removing one call keeps the property that no awaited preview captured
      its own voice. */
  lemma UncapturedRemoveAt(calls: seq<Pending>, i: nat)
    requires i < |calls| && Uncaptured(calls)
    ensures Uncaptured(RemoveAt(calls, i))
  {
    var r := RemoveAt(calls, i);
    forall k | 0 <= k < |r| && r[k].PendingPreview?
      ensures !SelfCapture(r[k].voice.id, r[k].captured)
    {
      if k < i { assert r[k] == calls[k]; } else { assert r[k] == calls[k + 1]; }
    }
  }

  // ---------------------------------------------------------------------
  // Mount

  /** The initial selection: the first language, accent and speech type,
      and no voice. */
  const INITIAL: Selection := Selection(DEFAULT_TEXT, LANGUAGES[0].id, ACCENTS[0].id, SPEECH_TYPES[0].id, None)

  /** The mount's effects settle on English, United States, narration and
      Zephyr. */
  lemma MountedSelection()
    ensures Mounted(INITIAL) == Selection(DEFAULT_TEXT, "en", "us", "narration", Some("Zephyr"))
    ensures Settled(Mounted(INITIAL))
  {
    EnglishAccents();
    assert HasAccent(AvailableAccents("en"), "us") by {
      assert AvailableAccents("en")[0].id == "us";
    }
    EnUsNarrationVoices();
    assert MountCommit(INITIAL) == INITIAL.(voice := Some("Zephyr"));
    MountedConsistent(INITIAL);
    DefaultIsNarration();
  }

  /** The default text has no white space at its edges and is long enough
      to be sent for detection. */
  lemma DefaultTextTrimmed()
    ensures Trim(DEFAULT_TEXT) == DEFAULT_TEXT && |DEFAULT_TEXT| > 20 && LongText(DEFAULT_TEXT)
  {
    var a := "Hello world!";
    var b := " Welcome to the Gemini Text to Speech studio.";
    var c := " Here you can generate natural sounding audio in a variety of languages and voices.";
    assert DEFAULT_TEXT == a + b + c;
    assert DEFAULT_TEXT[|DEFAULT_TEXT| - 1] == c[|c| - 1];
    TrimUnchanged(DEFAULT_TEXT);
  }

  /** After mounting nothing plays, nothing is awaited, and one timer is
      armed for the default text. */
  lemma MountState()
    ensures Mount().sel == Selection(DEFAULT_TEXT, "en", "us", "narration", Some("Zephyr"))
    ensures Mount().timers == map[1 := DEFAULT_TEXT] && Mount().timerRef == Some(1)
    ensures !Mount().isGenerating && Mount().preview == None && Mount().main == MainStopped
    ensures Mount().error == None && Mount().inFlight == [] && Mount().speechCalls == []
    ensures Invariant(Mount())
  {
    var sel := Mounted(INITIAL);
    MountedSelection();
    DefaultTextTrimmed();
    var before := AppState(sel, false, None, MainStopped, None, None, None, None, map[], 1, 0, [], [], map[], [], [], []);
    assert Mount() == TextEffect(before);
    var m := TextEffect(before);
    TextEffectTracked(before);
    AtMostOneTimer(m);
    assert Bookkeeping(m);
  }

  // ---------------------------------------------------------------------
  // Preservation

  lemma StopAllBooks(s: AppState)
    requires Bookkeeping(s)
    ensures Bookkeeping(StopAllAudio(s))
  {
    DebounceFrame(s, StopAllAudio(s));
  }

  lemma PreviewClickKeeps(s: AppState, voice: Voice)
    requires Invariant(s)
    ensures Invariant(PreviewClick(s, voice))
  {
    var r := PreviewClick(s, voice);
    StopAllBooks(s);
    if !PreviewDisabled(s, voice) && s.preview != Some(PreviewState(voice.id, Playing)) {
      var t := StopAllAudio(s);
      var p := PendingPreview(voice, s.preview);
      assert r == t.(preview := Some(PreviewState(voice.id, Loading)), error := None,
                     speechCalls := t.speechCalls + [SpeechCall(voice.previewText, voice.id)],
                     inFlight := t.inFlight + [p]);
      CountAppend(t.inFlight, p, IsMain);
      assert GenerationTracked(r);
      DebounceFrame(t, r);
      assert AudioTracked(r);
      UncapturedAppend(t.inFlight, p);
    }
    SameSelection(s, r);
  }

  lemma ResolvePreviewAudio(s: AppState, i: nat, audio: Result<string, ServiceError>, decoded: bool)
    requires AudioTracked(s)
    requires i < |s.inFlight| && s.inFlight[i].PendingPreview? && Uncaptured(s.inFlight)
    ensures AudioTracked(ResolvePreview(s, i, audio, decoded))
  {
  }

  lemma ResolvePreviewKeeps(s: AppState, i: nat, audio: Result<string, ServiceError>, decoded: bool)
    requires Invariant(s)
    requires i < |s.inFlight| && s.inFlight[i].PendingPreview?
    ensures Invariant(ResolvePreview(s, i, audio, decoded))
  {
    var r := ResolvePreview(s, i, audio, decoded);
    CountRemoveAt(s.inFlight, i, IsMain);
    assert GenerationTracked(r);
    DebounceFrame(s, r);
    ResolvePreviewAudio(s, i, audio, decoded);
    UncapturedRemoveAt(s.inFlight, i);
    SameSelection(s, r);
  }

  lemma MainButtonKeeps(s: AppState)
    requires Invariant(s)
    ensures Invariant(MainButtonClick(s))
  {
    var r := MainButtonClick(s);
    StopAllBooks(s);
    if !MainButtonDisabled(s) && s.main == MainStopped && Trim(s.sel.text) != "" {
      var t := StopAllAudio(s);
      var p := PendingMain(s.sel.text, s.sel.voice.value);
      CountAppend(t.inFlight, p, IsMain);
      assert GenerationTracked(r);
      DebounceFrame(t, r);
      assert AudioTracked(r);
      UncapturedAppend(t.inFlight, p);
    }
    SameSelection(s, r);
  }

  lemma ResolveGenerateAudio(s: AppState, i: nat, audio: Result<string, ServiceError>, decoded: bool)
    requires AudioTracked(s)
    requires i < |s.inFlight| && s.inFlight[i].PendingMain?
    ensures AudioTracked(ResolveGenerate(s, i, audio, decoded))
  {
  }

  lemma ResolveGenerateKeeps(s: AppState, i: nat, audio: Result<string, ServiceError>, decoded: bool)
    requires Invariant(s)
    requires i < |s.inFlight| && s.inFlight[i].PendingMain?
    ensures Invariant(ResolveGenerate(s, i, audio, decoded))
  {
    var r := ResolveGenerate(s, i, audio, decoded);
    CountRemoveAt(s.inFlight, i, IsMain);
    assert GenerationTracked(r);
    DebounceFrame(s, r);
    ResolveGenerateAudio(s, i, audio, decoded);
    UncapturedRemoveAt(s.inFlight, i);
    SameSelection(s, r);
  }

  lemma SourceEndedKeeps(s: AppState, src: Source)
    requires Invariant(s) && src in s.handlers
    ensures Invariant(SourceEnded(s, src))
  {
    var r := SourceEnded(s, src);
    DebounceFrame(s, r);
    SameSelection(s, r);
  }

  /** A selection change keeps the bookkeeping, whose only dependence on the
      selection is the text. */
  lemma SelectionChange(s: AppState, sel: Selection)
    requires Invariant(s) && Settled(sel) && sel.text == s.sel.text
    ensures Invariant(s.(sel := sel))
  {
    DebounceFrame(s, s.(sel := sel));
  }

  lemma SelectLanguageKeeps(s: AppState, language: string)
    requires Invariant(s)
    ensures Invariant(SelectLanguage(s, language))
  {
    SettleConsistent(s.sel, s.sel.(language := language));
    SelectionChange(s, SelectLanguage(s, language).sel);
  }

  lemma SelectAccentKeeps(s: AppState, accent: string)
    requires Invariant(s)
    ensures Invariant(SelectAccent(s, accent))
  {
    SettleConsistent(s.sel, s.sel.(accent := accent));
    SelectionChange(s, SelectAccent(s, accent).sel);
  }

  /** The speech-type select offers only catalog ids. */
  lemma SelectSpeechTypeKeeps(s: AppState, speechType: string)
    requires Invariant(s) && IsSpeechTypeId(speechType)
    ensures Invariant(SelectSpeechType(s, speechType))
  {
    SettleConsistent(s.sel, s.sel.(speechType := speechType));
    SelectionChange(s, SelectSpeechType(s, speechType).sel);
  }

  /** Voice cards are drawn only for the filtered voices. */
  lemma SelectVoiceKeeps(s: AppState, id: string)
    requires Invariant(s)
    requires HasVoice(FilteredVoices(s.sel.language, s.sel.accent, s.sel.speechType), id)
    ensures Invariant(SelectVoice(s, id))
  {
    SelectionChange(s, SelectVoice(s, id).sel);
  }

  /** Clearing the timer the ref names leaves no timer armed. */
  lemma ClearingEmpties(s: AppState)
    requires TimerIds(s)
    ensures (if TimerRefSet(s) then s.timers - {s.timerRef.value} else s.timers) == map[]
  {
    var cleared := if TimerRefSet(s) then s.timers - {s.timerRef.value} else s.timers;
    assert forall id :: id !in cleared;
    assert cleared.Keys == {};
  }

  /** The text effect, run on timer fields that satisfy `TimerIds`, leaves
      at most the one timer it armed. */
  lemma TextEffectTracked(s: AppState)
    requires TimerIds(s)
    ensures DebounceTracked(TextEffect(s))
  {
    var r := TextEffect(s);
    ClearingEmpties(s);
    if LongText(s.sel.text) {
      assert r.timers == map[s.nextTimer := s.sel.text];
    } else {
      assert r.timers == map[];
    }
  }

  lemma TextChangedKeeps(s: AppState, text: string)
    requires Invariant(s)
    ensures Invariant(TextChanged(s, text))
  {
    var r := TextChanged(s, text);
    if text != s.sel.text {
      var t := s.(sel := s.sel.(text := text));
      TextEffectTracked(t);
      assert Settled(r.sel) by {
        assert r.sel == s.sel.(text := text);
      }
      assert AudioTracked(r);
      assert GenerationTracked(r);
    }
  }

  lemma TimerFiredKeeps(s: AppState, id: nat)
    requires Invariant(s) && id in s.timers
    ensures Invariant(TimerFired(s, id))
  {
    SameSelection(s, TimerFired(s, id));
  }

  lemma ResolveDetectionKeeps(s: AppState, i: nat, apiKey: Option<string>, reply: Reply<TextResponse>)
    requires Invariant(s) && i < |s.detecting|
    ensures Invariant(ResolveDetection(s, i, apiKey, reply))
  {
    var d := DetectSpeechType(apiKey, s.detecting[i], reply);
    var t := s.(detecting := RemoveAt(s.detecting, i));
    DebounceFrame(s, t);
    SameSelection(s, t);
    if d.Ok? {
      SettleConsistent(s.sel, s.sel.(speechType := d.value));
      SelectionChange(t, ResolveDetection(s, i, apiKey, reply).sel);
    }
  }

  lemma UnmountKeeps(s: AppState)
    requires Invariant(s)
    ensures Invariant(Unmount(s))
  {
    SameSelection(s, Unmount(s));
  }

  // ---------------------------------------------------------------------
  // Laws

  /** At most one auto-detect timer is ever armed, and it is the one the
      ref names, holding the current text. */
  lemma AtMostOneTimer(s: AppState)
    requires DebounceTracked(s)
    ensures |s.timers| <= 1
    ensures |s.timers| == 1 ==> s.timerRef.Some? && s.timers == map[s.timerRef.value := s.sel.text]
  {
    if s.timers != map[] {
      var id :| id in s.timers;
      assert s.timers.Keys == {id};
      assert s.timers == map[id := s.sel.text];
    }
  }

  /** A text change cancels the armed timer; afterwards a timer is armed,
      for the new text, exactly when its trimmed length in UTF-16 code
      units exceeds 20. */
  lemma TextChangeDebounces(s: AppState, text: string)
    requires DebounceTracked(s) && text != s.sel.text
    ensures var r := TextChanged(s, text);
      (forall id :: id in s.timers ==> id !in r.timers) &&
      (LongText(text) <==> r.timers != map[]) &&
      (forall id :: id in r.timers ==> r.timers[id] == text)
  {
    var r := TextChanged(s, text);
    if LongText(text) {
      assert s.nextTimer in r.timers;
    }
  }

  /** Lengths count UTF-16 code units: eleven characters outside the Basic
      Multilingual Plane make 22 units, enough to arm the detection timer. */
  lemma AstralTextArmsTimer(s: AppState)
    requires s.sel.text == seq(11, _ => '\U{1F600}')
    ensures |s.sel.text| == 11 && LongText(s.sel.text)
    ensures TextEffect(s).timerRef == Some(s.nextTimer)
    ensures TextEffect(s).timers[s.nextTimer] == s.sel.text
  {
    var t := s.sel.text;
    assert !IsWhite(t[0]) && !IsWhite(t[|t| - 1]);
    TrimUnchanged(t);
    JsLengthAstral(t);
  }

  /** Two quick edits: only the second text is ever sent for detection. */
  lemma TwoEditsDetectLatest(s: AppState, first: string, second: string)
    requires DebounceTracked(s) && first != s.sel.text && second != first && LongText(second)
    ensures var r := TextChanged(TextChanged(s, first), second);
      r.timerRef.Some? && r.timers == map[r.timerRef.value := second] &&
      TimerFired(r, r.timerRef.value).detectCalls == s.detectCalls + [second]
  {
    var m := TextChanged(s, first);
    var r := TextChanged(m, second);
    assert DebounceTracked(m) by { TextEffectTracked(s.(sel := s.sel.(text := first))); }
    TextChangeDebounces(m, second);
    assert DebounceTracked(r) by { TextEffectTracked(m.(sel := m.sel.(text := second))); }
    AtMostOneTimer(r);
  }

  /** While a generation is awaited the main button does nothing, so no
      second generation can start. */
  lemma NoSecondGeneration(s: AppState)
    requires s.isGenerating
    ensures MainButtonClick(s) == s
  {
  }

  /** Generating round trip: the click starts one request for the text and
      voice; resuming it ends generation, with main playing exactly when a
      clip came back and decoded, and the error message otherwise. */
  lemma GenerateRoundTrip(s: AppState, apiKey: Option<string>, reply: Reply<SpeechResponse>, decoded: bool)
    requires !MainButtonDisabled(s) && s.main == MainStopped && Trim(s.sel.text) != ""
    ensures var started := MainButtonClick(s);
      started.isGenerating && started.inFlight == s.inFlight + [PendingMain(s.sel.text, s.sel.voice.value)] &&
      var audio := GenerateSpeech(apiKey, s.sel.text, s.sel.voice.value, reply);
      var done := ResolveGenerate(started, |s.inFlight|, audio, decoded);
      var ok := audio.Ok? && decoded;
      !done.isGenerating && done.inFlight == s.inFlight &&
      (done.main == MainPlaying <==> ok) &&
      (done.error == Some(GENERATE_FAILED) <==> !ok)
  {
    var started := MainButtonClick(s);
    assert RemoveAt(started.inFlight, |s.inFlight|) == s.inFlight;
  }

  /** A missing key fails generation with the message, whatever the reply. */
  lemma GenerateWithoutKeyFails(s: AppState, i: nat, apiKey: Option<string>, reply: Reply<SpeechResponse>, decoded: bool)
    requires i < |s.inFlight| && s.inFlight[i].PendingMain? && !HasApiKey(apiKey)
    ensures var p := s.inFlight[i];
      var done := ResolveGenerate(s, i, GenerateSpeech(apiKey, p.text, p.voiceId, reply), decoded);
      done.error == Some(GENERATE_FAILED) && done.main == MainStopped && !done.isGenerating
  {
  }

  /** Preview round trip for a voice other than the one previewing, if any:
      the click starts the request, and resuming it plays the voice or
      reports the failure. */
  lemma PreviewRoundTrip(s: AppState, voice: Voice, apiKey: Option<string>, reply: Reply<SpeechResponse>, decoded: bool)
    requires s.preview.None? || s.preview.value.id != voice.id
    ensures var started := PreviewClick(s, voice);
      started.preview == Some(PreviewState(voice.id, Loading)) && started.error == None &&
      started.speechCalls == s.speechCalls + [SpeechCall(voice.previewText, voice.id)] &&
      var audio := GenerateSpeech(apiKey, voice.previewText, voice.id, reply);
      var done := ResolvePreview(started, |s.inFlight|, audio, decoded);
      var ok := audio.Ok? && decoded;
      done.inFlight == s.inFlight &&
      (ok ==> done.preview == Some(PreviewState(voice.id, Playing)) && done.previewSource.Some?) &&
      (!ok ==> done.preview == None && done.error == Some(PREVIEW_FAILED))
  {
    var started := PreviewClick(s, voice);
    assert RemoveAt(started.inFlight, |s.inFlight|) == s.inFlight;
  }

  /** As written, the preview `onended` callback never nulls the preview:
      the `previewState` its closure captured was never for its own voice,
      since a click on a voice that is loading is disabled and one on a
      voice that is playing only stops. */
  lemma PreviewEndedNeverClears(s: AppState, src: Source)
    requires Bookkeeping(s) && src in s.handlers && s.handlers[src].PreviewEnded?
    ensures SourceEnded(s, src).preview == s.preview
  {
  }

  /** As written, a main source's `ended` event marks main stopped even when
      a newer source is the current one. */
  lemma StaleMainEndedStops(s: AppState, src: Source)
    requires src in s.handlers && s.handlers[src] == MainEnded
    requires s.mainSource.Some? && s.mainSource.value != src
    ensures SourceEnded(s, src).main == MainStopped
    ensures SourceEnded(s, src).mainSource == s.mainSource
  {
  }

  /** Two preview clicks on different voices, from nothing previewing: two
      calls are awaited, the second closure having captured the first
      voice's loading state, and the second voice is loading. */
  lemma TwoPreviewClicks(s: AppState, a: Voice, b: Voice)
    requires s.preview == None && a.id != b.id
    ensures var clicked := PreviewClick(PreviewClick(s, a), b);
      clicked.inFlight == s.inFlight + [PendingPreview(a, None), PendingPreview(b, Some(PreviewState(a.id, Loading)))] &&
      clicked.preview == Some(PreviewState(b.id, Loading)) &&
      clicked.speechCalls == s.speechCalls + [SpeechCall(a.previewText, a.id), SpeechCall(b.previewText, b.id)]
  {
  }

  /** With no stale-result check, of two previews clicked in a row the one
      resolving last wins: when the first resolves after the second the
      first voice is shown playing, and the second's source is left in no
      ref without being stopped. */
  lemma SupersededPreviewWins(s: AppState, a: Voice, b: Voice, audioA: string, audioB: string)
    requires s.preview == None && a.id != b.id
    ensures var clicked := PreviewClick(PreviewClick(s, a), b);
      var n := |s.inFlight|;
      |clicked.inFlight| == n + 2 && clicked.inFlight[n].PendingPreview? && clicked.inFlight[n + 1].PendingPreview? &&
      var afterB := ResolvePreview(clicked, n + 1, Ok(audioB), true);
      afterB.preview == Some(PreviewState(b.id, Playing)) &&
      afterB.inFlight == s.inFlight + [PendingPreview(a, None)] &&
      var afterA := ResolvePreview(afterB, n, Ok(audioA), true);
      afterA.preview == Some(PreviewState(a.id, Playing)) &&
      afterB.previewSource.Some? && afterA.previewSource != afterB.previewSource &&
      afterA.stopped == clicked.stopped
  {
    TwoPreviewClicks(s, a, b);
    var n := |s.inFlight|;
    var clicked := PreviewClick(PreviewClick(s, a), b);
    var pa := PendingPreview(a, None);
    assert RemoveAt(clicked.inFlight, n + 1) == s.inFlight + [pa];
  }

  /** A settled detection adopts its type; the selection stays settled. */
  lemma DetectionAdopts(s: AppState, i: nat, apiKey: Option<string>, reply: Reply<TextResponse>)
    requires Invariant(s) && i < |s.detecting| && HasApiKey(apiKey)
    ensures var r := ResolveDetection(s, i, apiKey, reply);
      Settled(r.sel) &&
      r.sel.speechType == DetectSpeechType(apiKey, s.detecting[i], reply).value &&
      r.sel.text == s.sel.text && r.sel.language == s.sel.language
  {
    ResolveDetectionKeeps(s, i, apiKey, reply);
  }
}
