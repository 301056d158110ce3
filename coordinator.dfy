/** The playback and request coordinator of App.tsx as a state machine.
    `AppState` holds the component's state variables and refs; each
    function below is one event: a user action, the resumption of an
    awaited call (its outcome is a parameter), a source's `ended` event, or
    a timer firing. An `async` handler is split at its `await`: the part
    before it records a `Pending` continuation, and the part after it runs
    when that continuation is resumed. `handlePreview` and `handleGenerate`
    await twice in a row, for `generateSpeech` and then `playBase64Audio`;
    since no state is written between those two awaits, one resumption
    covers both and no reachable state is lost. */
module Coordinator {
  import opened Wrappers
  import opened Types
  import opened Catalog
  import opened Seqs
  import opened JsString
  import opened GeminiService
  import opened SelectionFilter

  datatype PreviewStatus = Loading | Playing

  /** `previewState` when not null. */
  datatype PreviewState = PreviewState(id: string, status: PreviewStatus)

  /** `mainAudioState`. */
  datatype MainAudioState = MainPlaying | MainStopped

  /** An opaque audio source handle returned by `playBase64Audio`. */
  datatype Source = Source(handle: nat)

  /** One call of `generateSpeech(text, voiceName)`. */
  datatype SpeechCall = SpeechCall(text: string, voiceName: string)

  /** An awaited `generateSpeech` call and what its continuation captured:
      the voice and the `previewState` of the render whose `handlePreview`
      was clicked, or the text and voice of `handleGenerate`. */
  datatype Pending =
    | PendingPreview(voice: Voice, captured: Option<PreviewState>)
    | PendingMain(text: string, voiceId: string)

  /** The `onended` callback installed on a source. */
  datatype EndedHandler =
    | PreviewEnded(voiceId: string, captured: Option<PreviewState>)
    | MainEnded

  datatype AppState = AppState(
    sel: Selection,                       // text and the four selections
    isGenerating: bool,
    preview: Option<PreviewState>,        // previewState
    main: MainAudioState,                 // mainAudioState
    error: Option<string>,
    previewSource: Option<Source>,        // previewAudioSourceRef.current
    mainSource: Option<Source>,           // mainAudioSourceRef.current
    timerRef: Option<nat>,                // autoDetectTimeoutRef.current
    timers: map<nat, string>,             // armed timers and the text each captured
    nextTimer: nat,                       // the next id `setTimeout` hands out
    nextSource: nat,                      // the next handle `playBase64Audio` hands out
    inFlight: seq<Pending>,               // awaited `generateSpeech` calls
    detecting: seq<string>,               // awaited `detectSpeechType` calls
    handlers: map<Source, EndedHandler>,  // sources whose `ended` event is still to come
    stopped: seq<Source>,                 // every `stop()` call, in order
    speechCalls: seq<SpeechCall>,         // every `generateSpeech` call, in order
    detectCalls: seq<string>)             // every `detectSpeechType` call, in order

  const PREVIEW_FAILED: string := "Failed to generate voice preview. Please try again."
  const GENERATE_FAILED: string := "Failed to generate speech. Please check your connection and try again."
  /** The initial text, sentence by sentence. */
  const DEFAULT_TEXT: string :=
    "Hello world!" + " Welcome to the Gemini Text to Speech studio." +
    " Here you can generate natural sounding audio in a variety of languages and voices."

  /** JavaScript truthiness of a nullable string. */
  predicate Truthy(s: Option<string>) {
    s.Some? && s.value != ""
  }

  /** The source a ref holds, as a list of zero or one. */
  function Present(src: Option<Source>): seq<Source> {
    if src.Some? then [src.value] else []
  }

  predicate IsMain(p: Pending) {
    p.PendingMain?
  }

  // ---------------------------------------------------------------------
  // stopAllAudio

  /** `stopAllAudio`: stops whichever sources are present, clears both refs,
      nulls the preview and stops the main channel; nothing else changes. */
  function StopAllAudio(s: AppState): (r: AppState)
    ensures r.previewSource == None && r.mainSource == None
    ensures r.preview == None && r.main == MainStopped
    ensures r.stopped == s.stopped + Present(s.previewSource) + Present(s.mainSource)
    ensures r.(stopped := s.stopped, previewSource := s.previewSource, mainSource := s.mainSource,
               preview := s.preview, main := s.main) == s
  {
    s.(stopped := s.stopped + Present(s.previewSource) + Present(s.mainSource),
       previewSource := None, preview := None, mainSource := None, main := MainStopped)
  }

  /** Stopping twice is stopping once. */
  lemma StopAllIdempotent(s: AppState)
    ensures StopAllAudio(StopAllAudio(s)) == StopAllAudio(s)
  {
  }

  // ---------------------------------------------------------------------
  // handlePreview

  /** The preview button of a voice card is disabled while that voice's
      preview is loading. */
  predicate PreviewDisabled(s: AppState, voice: Voice) {
    s.preview == Some(PreviewState(voice.id, Loading))
  }

  /** The synchronous part of `handlePreview(voice)`. A click on the voice
      whose preview is playing only stops everything. Any other click stops
      everything, marks the voice as loading, clears the error and calls
      `generateSpeech` with the voice's sample text. */
  function HandlePreview(s: AppState, voice: Voice): (r: AppState)
    ensures s.preview == Some(PreviewState(voice.id, Playing)) ==> r == StopAllAudio(s)
    ensures s.preview != Some(PreviewState(voice.id, Playing)) ==>
      r == StopAllAudio(s).(preview := Some(PreviewState(voice.id, Loading)), error := None,
                            speechCalls := s.speechCalls + [SpeechCall(voice.previewText, voice.id)],
                            inFlight := s.inFlight + [PendingPreview(voice, s.preview)])
  {
    if s.preview.Some? && s.preview.value.id == voice.id && s.preview.value.status == Playing then
      StopAllAudio(s)
    else
      var t := StopAllAudio(s);
      t.(preview := Some(PreviewState(voice.id, Loading)), error := None,
         speechCalls := t.speechCalls + [SpeechCall(voice.previewText, voice.id)],
         inFlight := t.inFlight + [PendingPreview(voice, s.preview)])
  }

  /** A click on a voice card's preview button. */
  function PreviewClick(s: AppState, voice: Voice): (r: AppState)
    ensures PreviewDisabled(s, voice) ==> r == s
  {
    if PreviewDisabled(s, voice) then s else HandlePreview(s, voice)
  }

  /** The toggle: a click on the voice whose preview is playing stops all
      audio and issues no request. */
  lemma PreviewToggleOnlyStops(s: AppState, voice: Voice)
    requires s.preview == Some(PreviewState(voice.id, Playing))
    ensures PreviewClick(s, voice) == StopAllAudio(s)
    ensures PreviewClick(s, voice).speechCalls == s.speechCalls
    ensures PreviewClick(s, voice).inFlight == s.inFlight
    ensures PreviewClick(s, voice).preview == None && PreviewClick(s, voice).main == MainStopped
  {
  }

  /** The continuation of `handlePreview` for in-flight call `i`, resumed with
      what the awaited `generateSpeech` produced (`audio`) and whether
      `playBase64Audio` succeeded. On success
      the new source is in the preview ref, the preview is playing for that
      voice and the source's `onended` compares against the captured
      `previewState`. On failure the preview is null and the error is the
      preview-failure message. There is no check that the call is still
      current: a superseded call writes state all the same. */
  function ResolvePreview(s: AppState, i: nat, audio: Result<string, ServiceError>, decoded: bool): (r: AppState)
    requires i < |s.inFlight| && s.inFlight[i].PendingPreview?
    ensures r.inFlight == RemoveAt(s.inFlight, i)
    ensures var p := s.inFlight[i];
      var ok := audio.Ok? && decoded;
      (ok ==> r.previewSource == Some(Source(s.nextSource)) &&
              r.preview == Some(PreviewState(p.voice.id, Playing)) &&
              r.handlers == s.handlers[Source(s.nextSource) := PreviewEnded(p.voice.id, p.captured)] &&
              r.nextSource == s.nextSource + 1 && r.error == s.error) &&
      (!ok ==> r.preview == None && r.error == Some(PREVIEW_FAILED) &&
               r.previewSource == s.previewSource && r.handlers == s.handlers && r.nextSource == s.nextSource)
    ensures r.main == s.main && r.mainSource == s.mainSource && r.isGenerating == s.isGenerating
    ensures r.sel == s.sel && r.stopped == s.stopped && r.speechCalls == s.speechCalls
    ensures r.timers == s.timers && r.timerRef == s.timerRef && r.detecting == s.detecting
    ensures r.nextTimer == s.nextTimer && r.detectCalls == s.detectCalls
  {
    var p := s.inFlight[i];
    var t := s.(inFlight := RemoveAt(s.inFlight, i));
    if audio.Ok? && decoded then
      var src := Source(s.nextSource);
      t.(nextSource := s.nextSource + 1, previewSource := Some(src),
         preview := Some(PreviewState(p.voice.id, Playing)),
         handlers := s.handlers[src := PreviewEnded(p.voice.id, p.captured)])
    else
      t.(error := Some(PREVIEW_FAILED), preview := None)
  }

  // ---------------------------------------------------------------------
  // handleGenerate and the main button

  /** The synchronous part of `handleGenerate`: nothing happens for blank
      text or no voice; otherwise all audio stops, generation starts, the
      error clears and `generateSpeech` is called with the text and voice. */
  function HandleGenerate(s: AppState): (r: AppState)
    ensures Trim(s.sel.text) == "" || !Truthy(s.sel.voice) ==> r == s
    ensures Trim(s.sel.text) != "" && Truthy(s.sel.voice) ==>
      r == StopAllAudio(s).(isGenerating := true, error := None,
                            speechCalls := s.speechCalls + [SpeechCall(s.sel.text, s.sel.voice.value)],
                            inFlight := s.inFlight + [PendingMain(s.sel.text, s.sel.voice.value)])
  {
    if Trim(s.sel.text) == "" || !Truthy(s.sel.voice) then s
    else
      var t := StopAllAudio(s);
      t.(isGenerating := true, error := None,
         speechCalls := t.speechCalls + [SpeechCall(s.sel.text, s.sel.voice.value)],
         inFlight := t.inFlight + [PendingMain(s.sel.text, s.sel.voice.value)])
  }

  /** The continuation of `handleGenerate` for in-flight call `i`, resumed
      like that of `handlePreview`. On success
      the new source is in the main ref and main is playing; on failure main
      is stopped and the error is the generation-failure message. Either way
      generation is over. */
  function ResolveGenerate(s: AppState, i: nat, audio: Result<string, ServiceError>, decoded: bool): (r: AppState)
    requires i < |s.inFlight| && s.inFlight[i].PendingMain?
    ensures r.inFlight == RemoveAt(s.inFlight, i) && !r.isGenerating
    ensures var ok := audio.Ok? && decoded;
      (ok ==> r.mainSource == Some(Source(s.nextSource)) && r.main == MainPlaying &&
              r.handlers == s.handlers[Source(s.nextSource) := MainEnded] &&
              r.nextSource == s.nextSource + 1 && r.error == s.error) &&
      (!ok ==> r.main == MainStopped && r.error == Some(GENERATE_FAILED) &&
               r.mainSource == s.mainSource && r.handlers == s.handlers && r.nextSource == s.nextSource)
    ensures r.preview == s.preview && r.previewSource == s.previewSource
    ensures r.sel == s.sel && r.stopped == s.stopped && r.speechCalls == s.speechCalls
    ensures r.timers == s.timers && r.timerRef == s.timerRef && r.detecting == s.detecting
    ensures r.nextTimer == s.nextTimer && r.detectCalls == s.detectCalls
  {
    var t := s.(inFlight := RemoveAt(s.inFlight, i), isGenerating := false);
    if audio.Ok? && decoded then
      var src := Source(s.nextSource);
      t.(nextSource := s.nextSource + 1, mainSource := Some(src), main := MainPlaying,
         handlers := s.handlers[src := MainEnded])
    else
      t.(error := Some(GENERATE_FAILED), main := MainStopped)
  }

  /** `disabled={isGenerating || !selectedVoice}`. */
  predicate MainButtonDisabled(s: AppState) {
    s.isGenerating || !Truthy(s.sel.voice)
  }

  /** A click on the main button: nothing while it is disabled; otherwise
      `stopAllAudio` while main is playing and `handleGenerate` when not. */
  function MainButtonClick(s: AppState): (r: AppState)
    ensures MainButtonDisabled(s) ==> r == s
    ensures !MainButtonDisabled(s) && s.main == MainPlaying ==> r == StopAllAudio(s)
    ensures !MainButtonDisabled(s) && s.main == MainStopped ==> r == HandleGenerate(s)
  {
    if MainButtonDisabled(s) then s
    else if s.main == MainPlaying then StopAllAudio(s)
    else HandleGenerate(s)
  }

  // ---------------------------------------------------------------------
  // Source `ended` events

  /** A source's `ended` event (Web Audio dispatches it at the natural end
      and after `stop()` alike) runs the callback installed on it, once. The
      preview callback nulls the preview only when the `previewState` it
      captured was for its own voice; the main callback stops main whatever
      source is current. */
  function SourceEnded(s: AppState, src: Source): (r: AppState)
    requires src in s.handlers
    ensures r.handlers == s.handlers - {src}
    ensures s.handlers[src] == MainEnded ==> r == s.(handlers := r.handlers, main := MainStopped)
    ensures s.handlers[src].PreviewEnded? ==>
      var h := s.handlers[src];
      r == s.(handlers := r.handlers,
              preview := if h.captured.Some? && h.captured.value.id == h.voiceId then None else s.preview)
  {
    var t := s.(handlers := s.handlers - {src});
    match s.handlers[src]
    case MainEnded => t.(main := MainStopped)
    case PreviewEnded(id, captured) =>
      if captured.Some? && captured.value.id == id then t.(preview := None) else t
  }

  // ---------------------------------------------------------------------
  // Selection changes and the auto-detect debounce

  /** A `<select>` change: the new selection, then the effects it triggers. */
  function SelectLanguage(s: AppState, language: string): (r: AppState)
    ensures r == s.(sel := r.sel)
    ensures r.sel.language == language && r.sel.text == s.sel.text && r.sel.speechType == s.sel.speechType
    ensures language == s.sel.language ==> r == s
    ensures language != s.sel.language && |AvailableAccents(language)| > 0 ==>
      HasAccent(AvailableAccents(language), r.sel.accent)
  {
    s.(sel := Settle(s.sel, s.sel.(language := language)))
  }

  function SelectAccent(s: AppState, accent: string): (r: AppState)
    ensures r == s.(sel := r.sel)
    ensures r.sel.language == s.sel.language && r.sel.text == s.sel.text && r.sel.speechType == s.sel.speechType
    ensures accent == s.sel.accent ==> r == s
    ensures accent != s.sel.accent && |AvailableAccents(s.sel.language)| > 0 ==>
      HasAccent(AvailableAccents(s.sel.language), r.sel.accent)
    ensures accent != s.sel.accent && HasAccent(AvailableAccents(s.sel.language), accent) ==> r.sel.accent == accent
  {
    s.(sel := Settle(s.sel, s.sel.(accent := accent)))
  }

  /** `setSelectedSpeechType`, by the speech-type select or by detection. */
  function SelectSpeechType(s: AppState, speechType: string): (r: AppState)
    ensures r == s.(sel := r.sel)
    ensures r.sel.speechType == speechType && r.sel.text == s.sel.text
    ensures r.sel.language == s.sel.language && r.sel.accent == s.sel.accent
    ensures speechType == s.sel.speechType ==> r == s
    ensures speechType != s.sel.speechType ==>
      (r.sel.voice.None? <==> |FilteredVoices(s.sel.language, s.sel.accent, speechType)| == 0)
  {
    s.(sel := Settle(s.sel, s.sel.(speechType := speechType)))
  }

  /** A click on a voice card; no effect depends on the voice alone. */
  function SelectVoice(s: AppState, id: string): (r: AppState)
    ensures r.sel.voice == Some(id)
    ensures r == s.(sel := r.sel) && r.sel.(voice := s.sel.voice) == s.sel
  {
    s.(sel := s.sel.(voice := Some(id)))
  }

  /** Is the timer ref set? (`setTimeout` ids are positive.) */
  predicate TimerRefSet(s: AppState) {
    s.timerRef.Some? && s.timerRef.value != 0
  }

  /** `text.trim().length > 20`, the length counted in UTF-16 code units. */
  predicate LongText(text: string) {
    JsLength(Trim(text)) > 20
  }

  /** The text effect: clear the timer the ref names, then arm a new timer
      capturing the text when its trimmed length exceeds 20. The ref keeps
      its old value when no timer is armed. */
  function TextEffect(s: AppState): (r: AppState)
    ensures TimerRefSet(s) && s.timerRef.value != s.nextTimer ==> s.timerRef.value !in r.timers
    ensures LongText(s.sel.text) ==>
      r.timerRef == Some(s.nextTimer) && r.nextTimer == s.nextTimer + 1 &&
      s.nextTimer in r.timers && r.timers[s.nextTimer] == s.sel.text
    ensures !LongText(s.sel.text) ==> r.timerRef == s.timerRef && r.nextTimer == s.nextTimer
    ensures !LongText(s.sel.text) ==> r.timers.Keys <= s.timers.Keys
    ensures forall id :: id in r.timers && id != s.nextTimer ==> id in s.timers && r.timers[id] == s.timers[id]
    ensures forall id :: id in s.timers && !(TimerRefSet(s) && id == s.timerRef.value) &&
                         (LongText(s.sel.text) ==> id != s.nextTimer) ==>
                         id in r.timers && r.timers[id] == s.timers[id]
    ensures r.(timers := s.timers, timerRef := s.timerRef, nextTimer := s.nextTimer) == s
  {
    var cleared := if TimerRefSet(s) then s.timers - {s.timerRef.value} else s.timers;
    if LongText(s.sel.text) then
      s.(timers := cleared[s.nextTimer := s.sel.text], timerRef := Some(s.nextTimer), nextTimer := s.nextTimer + 1)
    else
      s.(timers := cleared)
  }

  /** `setText`: the effect runs only when the text actually changed. */
  function TextChanged(s: AppState, text: string): (r: AppState)
    ensures text == s.sel.text ==> r == s
    ensures r.sel == s.sel.(text := text)
    ensures text != s.sel.text ==> r == TextEffect(s.(sel := s.sel.(text := text)))
    ensures r.(timers := s.timers, timerRef := s.timerRef, nextTimer := s.nextTimer) == s.(sel := s.sel.(text := text))
  {
    if text == s.sel.text then s else TextEffect(s.(sel := s.sel.(text := text)))
  }

  /** An armed timer fires: it is no longer armed, and `detectSpeechType`
      is called with the text it captured. */
  function TimerFired(s: AppState, id: nat): (r: AppState)
    requires id in s.timers
    ensures r.detectCalls == s.detectCalls + [s.timers[id]]
    ensures r.detecting == s.detecting + [s.timers[id]]
    ensures r.timers == s.timers - {id}
    ensures r.(timers := s.timers, detectCalls := s.detectCalls, detecting := s.detecting) == s
  {
    s.(timers := s.timers - {id}, detectCalls := s.detectCalls + [s.timers[id]],
       detecting := s.detecting + [s.timers[id]])
  }

  /** The `.then` of detection call `i`: a fulfilled type is adopted as the
      speech type (with the effects that follow); a rejection, which only a
      missing key causes, has no handler and changes nothing. */
  function ResolveDetection(s: AppState, i: nat, apiKey: Option<string>, reply: Reply<TextResponse>): (r: AppState)
    requires i < |s.detecting|
    ensures r.detecting == RemoveAt(s.detecting, i)
    ensures var d := DetectSpeechType(apiKey, s.detecting[i], reply);
      r.sel == (if d.Ok? then Settle(s.sel, s.sel.(speechType := d.value)) else s.sel)
    ensures r.(sel := s.sel, detecting := s.detecting) == s
  {
    var t := s.(detecting := RemoveAt(s.detecting, i));
    match DetectSpeechType(apiKey, s.detecting[i], reply)
    case Ok(speechType) => SelectSpeechType(t, speechType)
    case Err(_) => t
  }

  /** Unmounting runs the text effect's cleanup: the timer the ref names is
      cleared. */
  function Unmount(s: AppState): (r: AppState)
    ensures TimerRefSet(s) ==> s.timerRef.value !in r.timers
    ensures r.timers.Keys <= s.timers.Keys
    ensures forall id :: id in s.timers && !(TimerRefSet(s) && id == s.timerRef.value) ==>
                         id in r.timers && r.timers[id] == s.timers[id]
    ensures r.(timers := s.timers) == s
  {
    if TimerRefSet(s) then s.(timers := s.timers - {s.timerRef.value}) else s
  }

  /** The state after the first render's effects: the initial selection
      reconciled and the text effect run on the initial text. */
  function Mount(): (r: AppState)
    ensures r.sel.text == DEFAULT_TEXT && r.sel.language == LANGUAGES[0].id && r.sel.speechType == SPEECH_TYPES[0].id
    ensures !r.isGenerating && r.preview == None && r.main == MainStopped && r.error == None
    ensures r.previewSource == None && r.mainSource == None && r.handlers == map[]
    ensures r.inFlight == [] && r.detecting == [] && r.speechCalls == [] && r.detectCalls == [] && r.stopped == []
    ensures r.timers.Keys <= {1}
  {
    var sel := Mounted(Selection(DEFAULT_TEXT, LANGUAGES[0].id, ACCENTS[0].id, SPEECH_TYPES[0].id, None));
    TextEffect(AppState(sel, false, None, MainStopped, None, None, None, None, map[], 1, 0, [], [], map[], [], [], []))
  }
}
