# Gemini TTS Studio — a Dafny model of its coordinator

The studio is a single-page React app. The user types text, picks a
language, an accent, a speech type and a voice, previews voices and
generates speech through the Gemini service. This project models:

- the catalog tables of `constants.ts`;
- the deterministic parts of `services/geminiService.ts`;
- the selection filters of `App.tsx` and the effects that reconcile them;
- the debounced auto-detection of the speech type;
- the preview and main playback handlers, and the rule that dispatches
  and disables the main button.

## Modules

- **Wrappers**: `Option` and `Result`.
- **Types**: the records of `types.ts`.
- **Catalog**: the four tables and facts about them, proved by computation.
- **Seqs**: `Array.filter`, removal at an index, and counting.
- **JsString**: `String.prototype.trim`, with the ECMAScript
  white-space and line-terminator set; the `length` of a string, counted in
  UTF-16 code units; and `Array.join`.
- **GeminiService**:
  - `generateSpeech` and `detectSpeechType` are functions of the API key
    and of the remote reply. The reply is a parameter, since the network
    cannot be seen.
  - `generateSpeech` throws without a key and throws when the reply has
    no inline audio.
  - `detectSpeechType` falls back to `narration` on an unknown answer and
    on a failed request.
- **SelectionFilter**:
  - `availableAccents` and `filteredVoices`;
  - the two reconciling effects;
  - a commit, which runs the effects whose dependencies changed between
    two renders;
  - `Settle`, two commits: the second commit runs the voice effect again
    after the accent effect has changed the accent.
- **CatalogFilters**: what the filters give on the real catalog.
- **Coordinator**: `AppState`, which holds every state variable and ref
  and the part of the browser the component sees:
  - armed timers;
  - audio sources and their `onended` callbacks;
  - awaited calls;
  - logs of `stop()`, `generateSpeech` and `detectSpeechType` calls.

  Each event of the component is one pure transition on `AppState`:

  - the user actions;
  - a source's `ended` event;
  - a timer firing;
  - the resumption of an awaited call.

  An `async` handler is split at its `await`, as the browser runs it. The
  part before the await records a `Pending` continuation. Resuming pending
  call `i` is a separate event, so any interleaving of clicks and replies
  can be expressed. `handlePreview` and `handleGenerate` await twice in a row, for
  `generateSpeech` and then `playBase64Audio`. Nothing is written between
  those two awaits, so one resumption covers both and no reachable state is
  lost.
- **CoordinatorLaws**:
  - the invariant: the selection is consistent; `isGenerating` matches the
    one awaited generation; at most one debounce timer is armed, and it
    holds the current text; the refs hold only issued sources;
  - a proof that every event preserves the invariant;
  - the behavioural laws: the debounce, the round trips, the toggles, and
    the stale-closure and superseded-result behaviour of the code as
    written.
- **Studio**: the component as a class. Its fields are the state variables,
  the refs and the browser bookkeeping. Each handler, effect and
  continuation is a method:
  - it changes the fields one at a time, as the component's setters and
    `ref.current` assignments do;
  - it is proved to keep `Valid()`;
  - it is proved to produce `State() == Coordinator.Event(old(State()), ...)`.

The model follows the code as written, including these three points
where it departs from the intended behaviour:

- No stale-result token is ever compared. A superseded preview or
  generation writes its result all the same.
- The preview `onended` callback compares against the `previewState` its
  closure captured at click time, not against the current one.
- `detectSpeechType` can reject, when the key is missing, and `App.tsx`
  attaches no handler for that rejection.

## Model

| member | source | states |
|---|---|---|
| Catalog.Ids | services/geminiService.ts:38 | the id list of a speech-type table has one id per entry, in order |
| Catalog.SpeechTypeIdsValue | constants.ts:19-25 | the speech-type ids are exactly narration, commercial, conversational, news and assistant, and membership in that list is the same as being a speech-type id |
| Catalog.DefaultIsNarration | constants.ts:19-20 | the first speech type, used as the fallback and the initial type, is `narration` and is a known id |
| Catalog.AccentLanguagesExist | constants.ts:4-17 | every accent belongs to a language listed in the language table |
| Catalog.VoiceIdsDistinct | constants.ts:27-84 | no two voices share an id, so a voice id picks out one card |
| Catalog.UsedTagsAreCatalogTags | constants.ts:4-25 | each tag the voices use is either `<language>-<accent>` for a catalog accent or a speech-type id |
| Catalog.VoiceTagsAt | constants.ts:27-84 | each tag of voice `i` is a language-accent tag of the catalog or a speech-type id |
| Catalog.VoiceTagsWellFormed | constants.ts:27-84 | every tag of every voice is a language-accent tag of the catalog or a speech-type id |
| Seqs.Filter | App.tsx:67-76 | `Array.filter` gives a sequence no longer than its input |
| Seqs.FilterIndices | App.tsx:67-76 | the positions `filter` keeps are one per filtered element |
| Seqs.FilterIndicesProject | App.tsx:67-76 | filtered element `i` is the input element at kept position `i` |
| Seqs.FilterIndicesIncreasing | App.tsx:67-76 | the kept positions increase strictly, so the filter keeps the input's order |
| Seqs.FilterIndicesMembers | App.tsx:67-76 | a position is kept exactly when its element satisfies the predicate |
| Seqs.FilterHeadIsFirstMatch | App.tsx:80 | the first filtered element is the first input element that satisfies the predicate |
| Seqs.FilterMembers | App.tsx:67-76 | an element is in the filtered sequence exactly when it is in the input and satisfies the predicate |
| JsString.Trim | App.tsx:97 | `trim` removes a white-space prefix and suffix and leaves a string that neither starts nor ends with white space |
| JsString.JsLength | App.tsx:97 | a string's JavaScript length lies between its number of characters and twice that, and is zero exactly for the empty string |
| JsString.JsLengthBmp | App.tsx:97 | without characters outside the Basic Multilingual Plane the length is the number of characters |
| JsString.JsLengthAstral | App.tsx:97 | a string made only of characters outside the Basic Multilingual Plane has two code units per character |
| JsString.TrimStart | services/geminiService.ts:49 | dropping leading white space leaves a suffix, drops only white space, and leaves a string that is empty or starts with a non-white character |
| JsString.TrimEnd | services/geminiService.ts:49 | dropping trailing white space leaves a prefix, drops only white space, and leaves a string that is empty or ends with a non-white character |
| JsString.TrimUnchanged | services/geminiService.ts:49 | a string with no white space at either end is its own trim |
| JsString.TrimStartPadded | services/geminiService.ts:49 | any white-space prefix before a string that starts with a non-white character is exactly what is dropped |
| JsString.TrimEndPadded | services/geminiService.ts:49 | any white-space suffix after a string that ends with a non-white character is exactly what is dropped |
| JsString.TrimEmptyIffAllWhite | App.tsx:147 | `!text.trim()` holds exactly when the text is all white space |
| JsString.TrimIdempotent | services/geminiService.ts:49 | trimming twice is trimming once |
| JsString.Join | services/geminiService.ts:38 | joining one item gives that item |
| JsString.JoinHasElementAt | services/geminiService.ts:38 | item `k` of a join sits at its computed offset in the joined string |
| GeminiService.HasApiKey | services/geminiService.ts:6 | defines the key check: a key is present and non-empty, since `!process.env.API_KEY` is true for a missing and an empty key |
| GeminiService.InlineAudio | services/geminiService.ts:24 | defines the optional chain to the first candidate's first part's inline data, `None` wherever a link is missing |
| GeminiService.SpeechTypeOptions | services/geminiService.ts:38 | defines the option list as the speech-type ids joined by `", "`; its value is stated by `SpeechTypeOptionsValue` |
| GeminiService.DetectionPrompt | services/geminiService.ts:39-41 | defines the classification prompt; what it contains is stated by `PromptMentionsOptionsAndText` |
| GeminiService.PromptMentionsOptionsAndText | services/geminiService.ts:38-41 | the prompt holds the option list right after its fixed opening, holds the text unchanged after the fixed instructions, and ends with the closing quote |
| GeminiService.GenerateSpeech | services/geminiService.ts:5-29 | no key rejects whatever the reply; a failed request rejects; an answer yields its first candidate's inline audio when present and non-empty, and rejects otherwise; a result is never empty |
| GeminiService.DetectSpeechType | services/geminiService.ts:32-59 | rejects exactly when the key is missing; otherwise always gives a speech-type id: the trimmed answer when it is a known id, `narration` for an unknown answer, a missing text or a failed request |
| GeminiService.SpeechTypeOptionsValue | services/geminiService.ts:38 | the prompt's option list is the five ids joined by `", "` |
| GeminiService.OptionsListEveryId | services/geminiService.ts:38-41 | every speech-type id occurs in the option list in the prompt |
| GeminiService.MissingKeyIgnoresReply | services/geminiService.ts:6-8 | without a key both calls reject with the missing-key error whatever the service would reply |
| GeminiService.SpeechTypeIdsUntrimmable | services/geminiService.ts:49-53 | no speech-type id starts or ends with white space |
| GeminiService.DetectKeepsPaddedKnownId | services/geminiService.ts:49-53 | an answer that is a known id with any white space before it and any white space after it is recognised as that id |
| GeminiService.TrimPadded | services/geminiService.ts:49 | trimming a core with no white space at its ends, after any white-space left padding and before any white-space right padding, gives the core |
| SelectionFilter.AvailableAccents | App.tsx:67-69 | the offered accents are table accents of the selected language, at most as many as the table has |
| SelectionFilter.FilteredVoices | App.tsx:71-76 | the offered voices are table voices carrying both the `<language>-<accent>` tag and the speech-type tag, at most as many as the table has |
| SelectionFilter.Consistent | App.tsx:78-91 | defines a consistent selection: an available accent when there are any, and the voice null exactly when no voice matches, otherwise a matching one |
| SelectionFilter.Commit | App.tsx:78-91 | a commit keeps the text, language and speech type; an accent whose dependencies did not change is kept, and after a change it is an available one; a voice whose dependencies did not change is kept, and after a change it is null exactly when no voice matches and otherwise a matching one |
| SelectionFilter.Settle | App.tsx:78-91 | the commit and its follow-up commit keep the text, the language and the speech type |
| SelectionFilter.MountCommit | App.tsx:52-91 | the first commit runs both effects: it keeps the text, language and speech type, picks an available accent, and leaves the voice null exactly when no voice matches |
| SelectionFilter.Mounted | App.tsx:52-91 | the first render's effects keep the text, language and speech type and leave an available accent |
| SelectionFilter.ReconcileAccent | App.tsx:78-82 | with accents available the result is one of them; the accent is kept when it is available or none are; otherwise it is the first available accent |
| SelectionFilter.ReconcileVoice | App.tsx:84-91 | the result is null exactly when no voice matches; a matching selected voice is kept; otherwise it is the first matching voice |
| SelectionFilter.SettleConsistent | App.tsx:78-91 | after a select change and the effects it triggers, the accent is available and the voice matches, and one more commit would change nothing |
| SelectionFilter.AccentEffectTakesFirstOfLanguage | App.tsx:78-82 | when the accent effect replaces the accent, the new accent is the first accent of the language in table order |
| SelectionFilter.VoiceEffectTakesFirstMatch | App.tsx:84-91 | when the voice effect replaces the voice by a voice, it is the first table voice carrying both tags |
| SelectionFilter.ReconcileAccentIdempotent | App.tsx:78-82 | the accent effect, run again on its own result, changes nothing |
| SelectionFilter.ReconcileVoiceIdempotent | App.tsx:84-91 | the voice effect, run again on its own result, changes nothing |
| SelectionFilter.AvailableAccentsExact | App.tsx:67-69 | an accent is offered exactly when it is in the table and belongs to the selected language |
| SelectionFilter.FilteredVoicesExact | App.tsx:71-76 | a voice is offered exactly when it is in the table and carries both the `<language>-<accent>` tag and the speech-type tag |
| SelectionFilter.MountedConsistent | App.tsx:52-56 | the first render's effects leave a consistent selection that a further commit does not change |
| CatalogFilters.FilterKeeps0134 | App.tsx:73-75 | filtering seven voices that match at positions 0, 1, 3 and 4 keeps those four, in order |
| CatalogFilters.FilterKeeps01 | App.tsx:68 | filtering six accents that match at positions 0 and 1 keeps those two, in order |
| CatalogFilters.EnUsNarrationVoices | App.tsx:71-76 | English, United States, narration offers Zephyr, Kore, Charon and Fenrir, in that order |
| CatalogFilters.EnUsNarrationPicks | constants.ts:27-84 | of the seven voices, the ones tagged both `en-us` and `narration` are those at positions 0, 1, 3 and 4 |
| CatalogFilters.EnUsNarrationIds | constants.ts:27-84 | the ids offered for English, US, narration are Zephyr, Kore, Charon and Fenrir, while the voice at position 2 is Puck, tagged `en-us`, and is not among them |
| CatalogFilters.EnUsNarrationExcludesPuck | App.tsx:71-76 | Puck is tagged `en-us` but not offered for narration |
| CatalogFilters.HasVoiceFor | App.tsx:71-76 | a table voice with both tags makes the filtered list non-empty |
| CatalogFilters.NarrationVoiceAt | App.tsx:71-76 | a voice tagged with an accent's tag and `narration` makes that accent's narration list non-empty |
| CatalogFilters.EveryAccentHasNarrationVoice | constants.ts:10-84 | every accent of the catalog has at least one narration voice |
| CatalogFilters.EsEsNewsHasNoVoice | App.tsx:84-89 | Spanish, Spain, news has no voice, so the voice effect sets the voice to null |
| CatalogFilters.NoEsEsNewsTagAt | constants.ts:27-84 | voice `i` of the table does not carry both `es-es` and `news` |
| CatalogFilters.NoEsEsNewsTags | constants.ts:27-84 | no voice of the table carries both `es-es` and `news` |
| CatalogFilters.EnglishAccents | App.tsx:67-69 | English offers the US and GB accents, in that order |
| Coordinator.PreviewDisabled | App.tsx:34 | defines when a card's preview button is disabled: its own voice's preview is loading |
| Coordinator.MainButtonDisabled | App.tsx:249 | defines when the main button is disabled: while generating or with no voice selected |
| Coordinator.LongText | App.tsx:97 | defines the debounce condition: the trimmed text is longer than 20 UTF-16 code units |
| Coordinator.SelectLanguage | App.tsx:187 | only the selection changes; the new language is set and the text and speech type are kept; the same language changes nothing; a new language with accents gets one of its accents |
| Coordinator.SelectAccent | App.tsx:193 | only the selection changes; the text, language and speech type are kept; the same accent changes nothing; a new accent ends available, and an available new accent is kept |
| Coordinator.SelectSpeechType | App.tsx:200 | only the selection changes; the new type is set and the text, language and accent are kept; the same type changes nothing; after a new type the voice is null exactly when no voice matches |
| Coordinator.SelectVoice | App.tsx:228 | only the voice of the selection changes, to the clicked id |
| Coordinator.Mount | App.tsx:52-109 | the first render starts from the initial text, the first language and the first speech type; nothing is generating, previewing, playing or in error; no source, callback, call or log exists; at most timer 1 is armed |
| Coordinator.StopAllAudio | App.tsx:111-118 | both source refs are null, the preview is null and main is stopped; each source that was in a ref is stopped once, preview first; nothing else changes |
| Coordinator.StopAllIdempotent | App.tsx:111-118 | stopping everything twice is stopping it once: the second call stops no source |
| Coordinator.HandlePreview | App.tsx:120-128 | a click on the voice that is playing only stops all audio; otherwise all audio stops, that voice is loading, the error clears, and one `generateSpeech` call is made with the voice's preview text and id, its continuation capturing the rendered `previewState` |
| Coordinator.PreviewClick | App.tsx:34 | a click on a card whose preview is loading does nothing, because its button is disabled |
| Coordinator.PreviewToggleOnlyStops | App.tsx:121-124 | a click on the playing voice stops all audio, leaves preview and main stopped and starts no call |
| Coordinator.ResolvePreview | App.tsx:130-143 | resuming the pending preview removes it; on audio that decodes, a fresh source is in the preview ref, the voice is playing, and the source's callback captures the old `previewState`; on failure the preview is null and the error is the preview message; every other field, main, the selection, the timers and the call logs included, is unchanged |
| Coordinator.HandleGenerate | App.tsx:146-150 | blank text or no voice does nothing; otherwise all audio stops, generation starts, the error clears, and one `generateSpeech` call is made with the text and voice |
| Coordinator.ResolveGenerate | App.tsx:152-163 | resuming the pending generation removes it and always ends generation; on audio that decodes, a fresh source is in the main ref and main is playing; on failure main is stopped with the generation message; every other field, the preview, the timers and the call logs included, is unchanged |
| Coordinator.MainButtonClick | App.tsx:248-249 | while generating, or with no voice, the button does nothing; while main plays it stops all audio; otherwise it runs the generate handler |
| Coordinator.SourceEnded | App.tsx:134-138 | the source's callback runs once; a main callback marks main stopped; a preview callback nulls the preview only when the state it captured was for its own voice |
| Coordinator.TextEffect | App.tsx:93-103 | the timer in the ref is cleared; when the trimmed text is longer than 20 UTF-16 code units a new timer holding the text is armed and its id is in the ref; otherwise the ref is unchanged and no timer is added; every other armed timer is kept unchanged, and nothing but the timers and the ref changes |
| Coordinator.TextChanged | App.tsx:210 | typing the same text does nothing; otherwise the text is replaced and the text effect runs on the new state; only the text, the timers and the timer ref change |
| Coordinator.TimerFired | App.tsx:98-99 | the timer is gone and one `detectSpeechType` call is made with the text the timer captured |
| Coordinator.ResolveDetection | App.tsx:99-101 | a fulfilled detection sets the speech type and runs the effects that follow it; a rejection changes nothing; the rest of the state is untouched |
| Coordinator.Unmount | App.tsx:104-108 | the cleanup clears the timer the ref names, adds no timer, keeps every other timer unchanged and changes nothing but the timers |
| CoordinatorLaws.Invariant | App.tsx:52-164 | defines the invariant: a settled selection, `isGenerating` matching the one awaited generation, at most one armed debounce timer holding the current text, and refs holding only issued sources |
| CoordinatorLaws.SameSelection | App.tsx:52-65 | an event that keeps the selection and the bookkeeping keeps the invariant |
| CoordinatorLaws.DebounceFrame | App.tsx:93-109 | the debounce part of the invariant depends only on the text, the timers and the ref |
| CoordinatorLaws.UncapturedAppend | App.tsx:120-128 | a new pending preview whose captured state is not its own voice's keeps that true of every pending preview |
| CoordinatorLaws.UncapturedRemoveAt | App.tsx:130-131 | resuming a pending call keeps it true that no pending preview captured its own voice |
| CoordinatorLaws.MountedSelection | App.tsx:52-56 | the first render settles on English, US, narration and the voice Zephyr |
| CoordinatorLaws.DefaultTextTrimmed | App.tsx:52 | the initial text has no white space at its edges, and its trimmed form is longer than 20 UTF-16 code units |
| CoordinatorLaws.MountState | App.tsx:52-109 | after mounting: that selection; exactly one timer, id 1, armed for the initial text; not generating, nothing playing, no error, no call made; the invariant holds |
| CoordinatorLaws.StopAllBooks | App.tsx:111-118 | stopping all audio keeps the bookkeeping invariant |
| CoordinatorLaws.PreviewClickKeeps | App.tsx:120-128 | a preview click keeps the invariant |
| CoordinatorLaws.ResolvePreviewAudio | App.tsx:131-138 | resuming a preview keeps the audio-tracking part of the invariant |
| CoordinatorLaws.ResolvePreviewKeeps | App.tsx:130-143 | resuming a preview keeps the invariant |
| CoordinatorLaws.MainButtonKeeps | App.tsx:146-150 | the main button keeps the invariant, so at most one generation is ever awaited |
| CoordinatorLaws.ResolveGenerateAudio | App.tsx:153-156 | resuming a generation keeps the audio-tracking part of the invariant |
| CoordinatorLaws.ResolveGenerateKeeps | App.tsx:152-163 | resuming a generation keeps the invariant, with nothing left awaited for the main button |
| CoordinatorLaws.SourceEndedKeeps | App.tsx:134-138 | a source's `ended` event keeps the invariant |
| CoordinatorLaws.SelectionChange | App.tsx:78-91 | a selection change settled by the effects keeps the invariant |
| CoordinatorLaws.SelectLanguageKeeps | App.tsx:187 | choosing a language keeps the invariant |
| CoordinatorLaws.SelectAccentKeeps | App.tsx:193 | choosing an accent keeps the invariant |
| CoordinatorLaws.SelectSpeechTypeKeeps | App.tsx:200 | choosing a listed speech type keeps the invariant |
| CoordinatorLaws.SelectVoiceKeeps | App.tsx:224-228 | clicking an offered voice card keeps the invariant |
| CoordinatorLaws.ClearingEmpties | App.tsx:94-96 | clearing the timer in the ref leaves no timer armed |
| CoordinatorLaws.TextEffectTracked | App.tsx:93-109 | after the text effect at most the one timer it armed remains, holding the current text |
| CoordinatorLaws.TextChangedKeeps | App.tsx:210 | typing keeps the invariant |
| CoordinatorLaws.TimerFiredKeeps | App.tsx:98-99 | a timer firing keeps the invariant |
| CoordinatorLaws.ResolveDetectionKeeps | App.tsx:99-101 | a detection result keeps the invariant |
| CoordinatorLaws.UnmountKeeps | App.tsx:104-108 | the unmount cleanup keeps the invariant |
| CoordinatorLaws.AtMostOneTimer | App.tsx:93-109 | at most one detection timer is armed; one that is armed is the one in the ref and holds the current text |
| CoordinatorLaws.TextChangeDebounces | App.tsx:93-103 | a text change cancels every armed timer; afterwards a timer is armed exactly when the trimmed new text is longer than 20 UTF-16 code units, and it holds the new text |
| CoordinatorLaws.AstralTextArmsTimer | App.tsx:97 | eleven emoji, eleven characters but 22 code units, arm the detection timer holding that text |
| CoordinatorLaws.TwoEditsDetectLatest | App.tsx:93-103 | after two quick edits only the second text is armed, and the timer firing sends only that text for detection |
| CoordinatorLaws.NoSecondGeneration | App.tsx:249 | while generating, the main button does nothing |
| CoordinatorLaws.GenerateRoundTrip | App.tsx:146-163 | click then resume: one request for the text and voice; generation ends; main plays exactly when audio came back and decoded; the error is the generation message exactly otherwise |
| CoordinatorLaws.GenerateWithoutKeyFails | App.tsx:152-163 | without a key, resuming a generation always ends in the generation error with main stopped |
| CoordinatorLaws.PreviewRoundTrip | App.tsx:120-143 | click then resume, on any state whose preview is not already this voice: the voice loads with one request for its preview text; it plays on audio that decodes, and otherwise the preview is null with the preview message |
| CoordinatorLaws.PreviewEndedNeverClears | App.tsx:134-138 | as written, a preview source's `ended` callback never nulls the preview, because no closure captured its own voice's state |
| CoordinatorLaws.StaleMainEndedStops | App.tsx:156 | as written, an older main source ending marks main stopped while a newer one is in the ref |
| CoordinatorLaws.TwoPreviewClicks | App.tsx:120-128 | two clicks on different voices await two calls; the second call's closure captured the first voice loading; the second voice is loading |
| CoordinatorLaws.SupersededPreviewWins | App.tsx:130-138 | of two previews, the one resolving last wins even when it was clicked first, and the other's source is left out of every ref without being stopped |
| CoordinatorLaws.DetectionAdopts | App.tsx:99-101 | with a key, a detection adopts the detected type, keeps the text and language, and leaves a settled selection |
| Studio.Studio.constructor | App.tsx:52-109 | the new component is in the mounted state and its invariant holds |
| Studio.Studio.StopAllAudio | App.tsx:111-118 | stopping and nulling each ref, then the two state setters, perform `StopAllAudio` |
| Studio.Studio.ClickPreview | App.tsx:120-128 | the preview click, step by step, performs `PreviewClick` and keeps the invariant |
| Studio.Studio.ResumePreview | App.tsx:130-143 | the preview continuation computes the service result for its captured voice and performs `ResolvePreview`, keeping the invariant |
| Studio.Studio.ClickMainButton | App.tsx:248-249 | the main button, step by step, performs `MainButtonClick` and keeps the invariant |
| Studio.Studio.HandleGenerate | App.tsx:146-150 | the synchronous part of `handleGenerate`, step by step, performs `HandleGenerate` |
| Studio.Studio.ResumeGenerate | App.tsx:152-163 | the generation continuation computes the service result and performs `ResolveGenerate`, ending generation and keeping the invariant |
| Studio.Studio.EndSource | App.tsx:134-138 | dispatching a source's `ended` callback performs `SourceEnded` and keeps the invariant |
| Studio.Studio.ChangeLanguage | App.tsx:187 | the language select performs `SelectLanguage` with its effects and keeps the invariant |
| Studio.Studio.ChangeAccent | App.tsx:193 | the accent select performs `SelectAccent` with its effects and keeps the invariant |
| Studio.Studio.ChangeSpeechType | App.tsx:200 | the speech-type select performs `SelectSpeechType` with its effects and keeps the invariant |
| Studio.Studio.ChooseVoice | App.tsx:228 | a voice card click performs `SelectVoice` and keeps the invariant |
| Studio.Studio.ChangeText | App.tsx:210 | the textarea change, with the text effect, performs `TextChanged` and keeps the invariant |
| Studio.Studio.FireTimer | App.tsx:98-99 | a timer firing performs `TimerFired` and keeps the invariant |
| Studio.Studio.ResumeDetection | App.tsx:99-101 | a detection continuation performs `ResolveDetection` and keeps the invariant |
| Studio.Studio.Unmount | App.tsx:104-108 | the cleanup performs `Unmount` and keeps the invariant |
| Studio.Studio.RunTextEffect | App.tsx:93-103 | clearing and arming timers step by step performs `TextEffect` |
| Studio.Studio.CommitEffects | App.tsx:78-91 | the two effects, run for the dependencies that changed since the previous render, perform `Commit` |
| Studio.Studio.SettleEffects | App.tsx:78-91 | a commit and the follow-up commit it causes perform `Settle` |
| Studio.Studio.MountEffects | App.tsx:78-91 | the first render's effects perform `Mounted` |

## Left out

- Rendering: the JSX, the styling, the icons and the spinners are not
  modelled. What the markup decides is modelled:
  - the preview button is disabled while its card's preview loads;
  - the main button's dispatch and disable rule;
  - which select options and voice cards exist.
- The Gemini client, its model names and its request configuration are
  not modelled. The service's reply is a parameter, and
  `GeminiService.GenerateSpeech` and `GeminiService.DetectSpeechType`
  model what the code does with it.
- `process.env.API_KEY` is a parameter.
- The base64 decoding and the Web Audio playback in `services/audioService.ts`: that
  file is not part of this model. Whether decoding and playback succeed is
  the `decoded` flag, and a source is an opaque handle.
- The 1500 ms delay and all timing are not modelled. Timers fire, and
  awaited calls resume, in any order the caller chooses. A timer can fire
  only while it is armed, because a cleared one never runs.
- `console.error` logging is not modelled.
- Coordinator.TextEffect: React runs the previous effect's cleanup and then
  the new effect, so the same timer is cleared twice. The model clears it
  once. A second clear of a cleared timer has no effect in the browser.
- JsString.Trim: a string is a sequence of Unicode scalar values, so a
  lone surrogate half cannot occur; `JsString.JsLength` counts two UTF-16
  code units for each character outside the Basic Multilingual Plane, as
  JavaScript's `length` does. The white-space set is the one ECMAScript
  lists. Unicode categories beyond that list are not modelled.
- Studio.Studio.ChangeSpeechType: requires a listed speech-type id, because
  the select offers only the options of the table.
- Studio.Studio.ChooseVoice: requires a voice among the filtered voices,
  because only those cards exist.
- React's batching of state updates and the re-render between them are not
  modelled. Each event's transition is the state after its updates and the
  effects they trigger.
- A superseded preview result and a source left outside the refs are
  described by lemmas, not prevented. The code has no guard against them.
