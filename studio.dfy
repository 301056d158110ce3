/** The App component as an object: its state variables and refs are
    fields, and so is what it sees of the browser (timers, audio sources,
    awaited calls). Each handler, effect, callback and continuation is a
    method that updates the fields step by step through setters, as the
    component does through its state setters and `ref.current`
    assignments, and each is proved to perform the matching Coordinator
    event and to keep the invariant. */
module Studio {
  import opened Wrappers
  import opened Types
  import opened Catalog
  import opened Seqs
  import opened JsString
  import opened GeminiService
  import opened SelectionFilter
  import opened Coordinator
  import opened CoordinatorLaws

  class Studio {
    // useState
    var text: string
    var language: string
    var accent: string
    var speechType: string
    var voice: Option<string>
    var isGenerating: bool
    var preview: Option<PreviewState>
    var main: MainAudioState
    var error: Option<string>
    // useRef
    var previewSource: Option<Source>
    var mainSource: Option<Source>
    var timerRef: Option<nat>
    // the browser and the service, as far as the component sees them
    var timers: map<nat, string>
    var nextTimer: nat
    var nextSource: nat
    var inFlight: seq<Pending>
    var detecting: seq<string>
    var handlers: map<Source, EndedHandler>
    var stopped: seq<Source>
    var speechCalls: seq<SpeechCall>
    var detectCalls: seq<string>

    function Sel(): Selection
      reads this
    {
      Selection(text, language, accent, speechType, voice)
    }

    function State(): AppState
      reads this
    {
      AppState(Sel(), isGenerating, preview, main, error, previewSource, mainSource,
               timerRef, timers, nextTimer, nextSource, inFlight, detecting, handlers,
               stopped, speechCalls, detectCalls)
    }

    predicate Valid()
      reads this
    {
      Invariant(State())
    }

    /** Mounting: the initial state, then the first commit's effects. */
    constructor ()
      ensures Valid() && State() == Mount()
    {
      text := DEFAULT_TEXT;
      language := "en";
      accent := "us";
      speechType := "narration";
      voice := None;
      isGenerating := false;
      preview := None;
      main := MainStopped;
      error := None;
      previewSource := None;
      mainSource := None;
      timerRef := None;
      timers := map[];
      nextTimer := 1;
      nextSource := 0;
      inFlight := [];
      detecting := [];
      handlers := map[];
      stopped := [];
      speechCalls := [];
      detectCalls := [];
      new;
      assert Sel() == INITIAL;
      MountEffects();
      RunTextEffect();
      MountState();
    }

    // ---------------------------------------------------------------------
    // State setters and ref assignments

    method SetAccent(a: string)
      modifies this
      ensures State() == old(State()).(sel := old(Sel()).(accent := a))
    {
      accent := a;
    }

    method SetVoice(v: Option<string>)
      modifies this
      ensures State() == old(State()).(sel := old(Sel()).(voice := v))
    {
      voice := v;
    }

    method SetLanguage(l: string)
      modifies this
      ensures State() == old(State()).(sel := old(Sel()).(language := l))
    {
      language := l;
    }

    method SetSpeechType(t: string)
      modifies this
      ensures State() == old(State()).(sel := old(Sel()).(speechType := t))
    {
      speechType := t;
    }

    method SetText(t: string)
      modifies this
      ensures State() == old(State()).(sel := old(Sel()).(text := t))
    {
      text := t;
    }

    method SetIsGenerating(b: bool)
      modifies this
      ensures State() == old(State()).(isGenerating := b)
    {
      isGenerating := b;
    }

    method SetPreviewState(p: Option<PreviewState>)
      modifies this
      ensures State() == old(State()).(preview := p)
    {
      preview := p;
    }

    method SetMainAudioState(m: MainAudioState)
      modifies this
      ensures State() == old(State()).(main := m)
    {
      main := m;
    }

    method SetError(e: Option<string>)
      modifies this
      ensures State() == old(State()).(error := e)
    {
      error := e;
    }

    method SetPreviewRef(src: Option<Source>)
      modifies this
      ensures State() == old(State()).(previewSource := src)
    {
      previewSource := src;
    }

    method SetMainRef(src: Option<Source>)
      modifies this
      ensures State() == old(State()).(mainSource := src)
    {
      mainSource := src;
    }

    method SetTimerRef(id: Option<nat>)
      modifies this
      ensures State() == old(State()).(timerRef := id)
    {
      timerRef := id;
    }

    // ---------------------------------------------------------------------
    // The browser and the service

    /** `source.stop()`. */
    method Stop(src: Source)
      modifies this
      ensures State() == old(State()).(stopped := old(stopped) + [src])
    {
      stopped := stopped + [src];
    }

    /** `setTimeout`, returning a fresh positive id. */
    method SetTimeout(captured: string) returns (id: nat)
      modifies this
      ensures id == old(nextTimer)
      ensures State() == old(State()).(timers := old(timers)[id := captured], nextTimer := id + 1)
    {
      id := nextTimer;
      nextTimer := nextTimer + 1;
      timers := timers[id := captured];
    }

    /** `clearTimeout`. */
    method ClearTimeout(id: nat)
      modifies this
      ensures State() == old(State()).(timers := old(timers) - {id})
    {
      timers := timers - {id};
    }

    /** Calls `generateSpeech` and awaits it with continuation `p`. */
    method CallGenerateSpeech(call: SpeechCall, p: Pending)
      modifies this
      ensures State() == old(State()).(speechCalls := old(speechCalls) + [call], inFlight := old(inFlight) + [p])
    {
      speechCalls := speechCalls + [call];
      inFlight := inFlight + [p];
    }

    /** Takes awaited call `i` off the list, to resume it. */
    method TakeCall(i: nat) returns (p: Pending)
      requires i < |inFlight|
      modifies this
      ensures p == old(inFlight[i])
      ensures State() == old(State()).(inFlight := RemoveAt(old(inFlight), i))
    {
      p := inFlight[i];
      inFlight := RemoveAt(inFlight, i);
    }

    /** `playBase64Audio` has decoded and started a new source with the
        given `onended` callback. */
    method Play(h: EndedHandler) returns (src: Source)
      modifies this
      ensures src == Source(old(nextSource))
      ensures State() == old(State()).(nextSource := old(nextSource) + 1, handlers := old(handlers)[src := h])
    {
      src := Source(nextSource);
      nextSource := nextSource + 1;
      handlers := handlers[src := h];
    }

    /** The `ended` event of `src` is dispatched, once. */
    method Dispatch(src: Source) returns (h: EndedHandler)
      requires src in handlers
      modifies this
      ensures h == old(handlers[src])
      ensures State() == old(State()).(handlers := old(handlers) - {src})
    {
      h := handlers[src];
      handlers := handlers - {src};
    }

    /** Calls `detectSpeechType` with the text, and awaits it. */
    method CallDetect(t: string)
      modifies this
      ensures State() == old(State()).(detectCalls := old(detectCalls) + [t], detecting := old(detecting) + [t])
    {
      detectCalls := detectCalls + [t];
      detecting := detecting + [t];
    }

    /** Takes awaited detection `i` off the list, to resume it. */
    method TakeDetection(i: nat) returns (t: string)
      requires i < |detecting|
      modifies this
      ensures t == old(detecting[i])
      ensures State() == old(State()).(detecting := RemoveAt(old(detecting), i))
    {
      t := detecting[i];
      detecting := RemoveAt(detecting, i);
    }

    // ---------------------------------------------------------------------
    // Effects

    /** One commit: the accent effect and the voice effect run when their
        dependencies differ from the previous render's, reading this
        render's values. */
    method CommitEffects(prev: Selection)
      modifies this
      ensures Sel() == Commit(prev, old(Sel()))
      ensures State() == old(State()).(sel := Sel())
    {
      var rendered := Sel();
      if rendered.language != prev.language || rendered.accent != prev.accent {
        SetAccent(ReconcileAccent(AvailableAccents(rendered.language), rendered.accent));
      }
      if rendered.language != prev.language || rendered.accent != prev.accent || rendered.speechType != prev.speechType {
        SetVoice(ReconcileVoice(FilteredVoices(rendered.language, rendered.accent, rendered.speechType), rendered.voice));
      }
    }

    /** The first commit runs both selection effects, then the commit they
        cause. */
    method MountEffects()
      modifies this
      ensures Sel() == Mounted(old(Sel()))
      ensures State() == old(State()).(sel := Sel())
    {
      var rendered := Sel();
      SetAccent(ReconcileAccent(AvailableAccents(rendered.language), rendered.accent));
      SetVoice(ReconcileVoice(FilteredVoices(rendered.language, rendered.accent, rendered.speechType), rendered.voice));
      CommitEffects(rendered);
    }

    /** A selection change followed by the commits it causes. */
    method SettleEffects(prev: Selection)
      modifies this
      ensures Sel() == Settle(prev, old(Sel()))
      ensures State() == old(State()).(sel := Sel())
    {
      var rendered := Sel();
      CommitEffects(prev);
      CommitEffects(rendered);
    }

    /** The text effect: clear the pending timer, arm one for long text. */
    method RunTextEffect()
      modifies this
      ensures State() == TextEffect(old(State()))
    {
      if timerRef.Some? && timerRef.value != 0 {
        ClearTimeout(timerRef.value);
      }
      if LongText(text) {
        var id := SetTimeout(text);
        SetTimerRef(Some(id));
      }
    }

    // ---------------------------------------------------------------------
    // Handlers, callbacks and continuations

    method StopAllAudio()
      modifies this
      ensures State() == Coordinator.StopAllAudio(old(State()))
    {
      if previewSource.Some? {
        Stop(previewSource.value);
        SetPreviewRef(None);
      }
      if mainSource.Some? {
        Stop(mainSource.value);
        SetMainRef(None);
      }
      SetPreviewState(None);
      SetMainAudioState(MainStopped);
    }

    method ClickPreview(v: Voice)
      requires Valid()
      modifies this
      ensures Valid() && State() == PreviewClick(old(State()), v)
    {
      ghost var s0 := State();
      PreviewClickKeeps(s0, v);
      if preview == Some(PreviewState(v.id, Loading)) {
        return;
      }
      var captured := preview;
      if captured.Some? && captured.value.id == v.id && captured.value.status == Playing {
        StopAllAudio();
        return;
      }
      StopAllAudio();
      SetPreviewState(Some(PreviewState(v.id, Loading)));
      SetError(None);
      CallGenerateSpeech(SpeechCall(v.previewText, v.id), PendingPreview(v, captured));
    }

    /** Resumes awaited preview call `i`: `generateSpeech` answers from the
        key and the reply, and `playBase64Audio` decodes or not. */
    method ResumePreview(i: nat, apiKey: Option<string>, reply: Reply<SpeechResponse>, decoded: bool)
      requires Valid() && i < |inFlight| && inFlight[i].PendingPreview?
      modifies this
      ensures Valid()
      ensures var p := old(inFlight[i]);
        State() == ResolvePreview(old(State()), i, GenerateSpeech(apiKey, p.voice.previewText, p.voice.id, reply), decoded)
    {
      ghost var s0 := State();
      var p := TakeCall(i);
      var audio := GenerateSpeech(apiKey, p.voice.previewText, p.voice.id, reply);
      ResolvePreviewKeeps(s0, i, audio, decoded);
      ghost var r := ResolvePreview(s0, i, audio, decoded);
      if audio.Ok? && decoded {
        var src := Play(PreviewEnded(p.voice.id, p.captured));
        SetPreviewRef(Some(src));
        SetPreviewState(Some(PreviewState(p.voice.id, Playing)));
        assert State() == r;
      } else {
        SetError(Some(PREVIEW_FAILED));
        SetPreviewState(None);
        assert State() == r;
      }
    }

    method ClickMainButton()
      requires Valid()
      modifies this
      ensures Valid() && State() == MainButtonClick(old(State()))
    {
      ghost var s0 := State();
      MainButtonKeeps(s0);
      if isGenerating || voice.None? || voice.value == "" {
        return;
      }
      if main == MainPlaying {
        StopAllAudio();
        return;
      }
      HandleGenerate();
    }

    /** The synchronous part of `handleGenerate`. */
    method HandleGenerate()
      modifies this
      ensures State() == Coordinator.HandleGenerate(old(State()))
    {
      if Trim(text) == "" || voice.None? || voice.value == "" {
        return;
      }
      var t, v := text, voice.value;
      StopAllAudio();
      SetIsGenerating(true);
      SetError(None);
      CallGenerateSpeech(SpeechCall(t, v), PendingMain(t, v));
    }

    method ResumeGenerate(i: nat, apiKey: Option<string>, reply: Reply<SpeechResponse>, decoded: bool)
      requires Valid() && i < |inFlight| && inFlight[i].PendingMain?
      modifies this
      ensures Valid() && !isGenerating
      ensures var p := old(inFlight[i]);
        State() == ResolveGenerate(old(State()), i, GenerateSpeech(apiKey, p.text, p.voiceId, reply), decoded)
    {
      ghost var s0 := State();
      var p := TakeCall(i);
      var audio := GenerateSpeech(apiKey, p.text, p.voiceId, reply);
      ResolveGenerateKeeps(s0, i, audio, decoded);
      ghost var r := ResolveGenerate(s0, i, audio, decoded);
      if audio.Ok? && decoded {
        var src := Play(MainEnded);
        SetMainRef(Some(src));
        SetMainAudioState(MainPlaying);
      } else {
        SetError(Some(GENERATE_FAILED));
        SetMainAudioState(MainStopped);
      }
      assert State() == r.(isGenerating := s0.isGenerating);
      SetIsGenerating(false);
    }

    method EndSource(src: Source)
      requires Valid() && src in handlers
      modifies this
      ensures Valid() && State() == SourceEnded(old(State()), src)
    {
      ghost var s0 := State();
      SourceEndedKeeps(s0, src);
      var h := Dispatch(src);
      match h
      case MainEnded =>
        SetMainAudioState(MainStopped);
      case PreviewEnded(id, captured) =>
        if captured.Some? && captured.value.id == id {
          SetPreviewState(None);
        }
    }

    method ChangeLanguage(l: string)
      requires Valid()
      modifies this
      ensures Valid() && State() == SelectLanguage(old(State()), l)
    {
      ghost var s0 := State();
      SelectLanguageKeeps(s0, l);
      var prev := Sel();
      SetLanguage(l);
      SettleEffects(prev);
    }

    method ChangeAccent(a: string)
      requires Valid()
      modifies this
      ensures Valid() && State() == SelectAccent(old(State()), a)
    {
      ghost var s0 := State();
      SelectAccentKeeps(s0, a);
      var prev := Sel();
      SetAccent(a);
      SettleEffects(prev);
    }

    method ChangeSpeechType(t: string)
      requires Valid() && IsSpeechTypeId(t)
      modifies this
      ensures Valid() && State() == SelectSpeechType(old(State()), t)
    {
      ghost var s0 := State();
      SelectSpeechTypeKeeps(s0, t);
      var prev := Sel();
      SetSpeechType(t);
      SettleEffects(prev);
    }

    method ChooseVoice(id: string)
      requires Valid() && HasVoice(FilteredVoices(language, accent, speechType), id)
      modifies this
      ensures Valid() && State() == SelectVoice(old(State()), id)
    {
      ghost var s0 := State();
      SelectVoiceKeeps(s0, id);
      SetVoice(Some(id));
    }

    method ChangeText(t: string)
      requires Valid()
      modifies this
      ensures Valid() && State() == TextChanged(old(State()), t)
    {
      ghost var s0 := State();
      TextChangedKeeps(s0, t);
      if t == text {
        return;
      }
      SetText(t);
      RunTextEffect();
    }

    method FireTimer(id: nat)
      requires Valid() && id in timers
      modifies this
      ensures Valid() && State() == TimerFired(old(State()), id)
    {
      ghost var s0 := State();
      TimerFiredKeeps(s0, id);
      var captured := timers[id];
      ClearTimeout(id);
      CallDetect(captured);
    }

    method ResumeDetection(i: nat, apiKey: Option<string>, reply: Reply<TextResponse>)
      requires Valid() && i < |detecting|
      modifies this
      ensures Valid() && State() == ResolveDetection(old(State()), i, apiKey, reply)
    {
      ghost var s0 := State();
      ResolveDetectionKeeps(s0, i, apiKey, reply);
      var sent := TakeDetection(i);
      var detected := DetectSpeechType(apiKey, sent, reply);
      if detected.Ok? {
        var prev := Sel();
        SetSpeechType(detected.value);
        SettleEffects(prev);
      }
    }

    method Unmount()
      requires Valid()
      modifies this
      ensures Valid() && State() == Coordinator.Unmount(old(State()))
    {
      ghost var s0 := State();
      UnmountKeeps(s0);
      if timerRef.Some? && timerRef.value != 0 {
        ClearTimeout(timerRef.value);
      }
    }
  }
}
