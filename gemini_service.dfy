/** The deterministic parts of services/geminiService.ts. The remote model
    call itself is an oracle: its answer is a parameter (`Reply`), and the
    functions below say what the service does with it. */
module GeminiService {
  import opened Wrappers
  import opened Catalog
  import opened JsString

  /** Why a service call rejects. */
  datatype ServiceError =
    | MissingApiKey   // `API_KEY environment variable not set`
    | RemoteFailure   // the model call itself rejected
    | NoAudioData     // `No audio data returned from API.`

  /** What the remote call produced: a response, or a rejection. */
  datatype Reply<T> = Answered(response: T) | Rejected

  /** The parts of a `generateContent` response that `generateSpeech` reads;
      every optional link of `candidates?.[0]?.content?.parts?.[0]?.inlineData?.data`
      may be absent. */
  datatype InlineData = InlineData(data: Option<string>)
  datatype Part = Part(inlineData: Option<InlineData>)
  datatype Content = Content(parts: Option<seq<Part>>)
  datatype Candidate = Candidate(content: Option<Content>)
  datatype SpeechResponse = SpeechResponse(candidates: Option<seq<Candidate>>)

  /** The part of a `generateContent` response `detectSpeechType` reads:
      `response.text`, which may be undefined. */
  datatype TextResponse = TextResponse(text: Option<string>)

  /** `!process.env.API_KEY` is false: the key is set and non-empty. */
  predicate HasApiKey(apiKey: Option<string>) {
    apiKey.Some? && apiKey.value != ""
  }

  /** The optional chain to the first candidate's first part's inline data. */
  function InlineAudio(r: SpeechResponse): Option<string> {
    if r.candidates.None? || |r.candidates.value| == 0 then None
    else
      var c := r.candidates.value[0];
      if c.content.None? || c.content.value.parts.None? || |c.content.value.parts.value| == 0 then None
      else
        var p := c.content.value.parts.value[0];
        if p.inlineData.None? then None else p.inlineData.value.data
  }

  /** `generateSpeech(text, voiceName)`: it rejects without consulting the
      remote call when the key is missing, rejects when the call does or
      when the response has no (or empty) inline audio data, and otherwise
      fulfils with exactly that data. */
  function GenerateSpeech(apiKey: Option<string>, text: string, voiceName: string,
                          reply: Reply<SpeechResponse>): (r: Result<string, ServiceError>)
    ensures !HasApiKey(apiKey) ==> r == Err(MissingApiKey)
    ensures HasApiKey(apiKey) && reply.Rejected? ==> r == Err(RemoteFailure)
    ensures HasApiKey(apiKey) && reply.Answered? ==>
      match InlineAudio(reply.response)
      case Some(data) => if data == "" then r == Err(NoAudioData) else r == Ok(data)
      case None => r == Err(NoAudioData)
    ensures r.Ok? ==> r.value != ""
  {
    if !HasApiKey(apiKey) then Err(MissingApiKey)
    else match reply
      case Rejected => Err(RemoteFailure)
      case Answered(response) =>
        var audio := InlineAudio(response);
        if audio.None? || audio.value == "" then Err(NoAudioData) else Ok(audio.value)
  }

  /** `SPEECH_TYPES.map(t => t.id).join(', ')`. */
  function SpeechTypeOptions(): string {
    Join(SPEECH_TYPE_IDS, ", ")
  }

  /** The fixed parts of the classification prompt. */
  const PROMPT_HEAD := "Analyze the following text and classify its most likely speech type. Choose only from these options: "
  const PROMPT_MIDDLE := ". Return only the single ID for the chosen type, for example: 'narration'.\n\nText: \""

  /** The classification prompt sent for `text`. */
  function DetectionPrompt(text: string): string {
    PROMPT_HEAD + SpeechTypeOptions() + PROMPT_MIDDLE + text + "\""
  }

  /** `detectSpeechType(text)`: it rejects without consulting the remote call
      when the key is missing; otherwise it always fulfils, with the trimmed
      answer when that is a catalog id and with the default speech type when
      the answer is unknown, missing, or the call rejected. */
  function DetectSpeechType(apiKey: Option<string>, text: string,
                            reply: Reply<TextResponse>): (r: Result<string, ServiceError>)
    ensures r.Err? <==> !HasApiKey(apiKey)
    ensures r.Err? ==> r.error == MissingApiKey
    ensures r.Ok? ==> IsSpeechTypeId(r.value)
    ensures (HasApiKey(apiKey) && reply.Answered? && reply.response.text.Some? &&
             IsSpeechTypeId(Trim(reply.response.text.value))) ==> r == Ok(Trim(reply.response.text.value))
    ensures (HasApiKey(apiKey) && (reply.Rejected? || reply.response.text.None? ||
             !IsSpeechTypeId(Trim(reply.response.text.value)))) ==> r == Ok(DEFAULT_SPEECH_TYPE)
  {
    assert IsSpeechTypeId(DEFAULT_SPEECH_TYPE) by { DefaultIsNarration(); }
    if !HasApiKey(apiKey) then Err(MissingApiKey)
    else match reply
      case Rejected => Ok(DEFAULT_SPEECH_TYPE)
      case Answered(response) =>
        if response.text.None? then Ok(DEFAULT_SPEECH_TYPE)
        else if IsSpeechTypeId(Trim(response.text.value)) then Ok(Trim(response.text.value))
        else Ok(DEFAULT_SPEECH_TYPE)
  }

  /** The options listed in the prompt are the five catalog ids in catalog
      order, separated by ", ". */
  lemma SpeechTypeOptionsValue()
    ensures SpeechTypeOptions() == Join(["narration", "commercial", "conversational", "news", "assistant"], ", ")
  {
    SpeechTypeIdsValue();
  }

  /** Every catalog speech-type id appears, in catalog order, inside the
      options list of the prompt. */
  lemma OptionsListEveryId(k: nat)
    requires k < |SPEECH_TYPE_IDS|
    ensures JoinOffset(SPEECH_TYPE_IDS, ", ", k) + |SPEECH_TYPE_IDS[k]| <= |SpeechTypeOptions()|
    ensures SpeechTypeOptions()[JoinOffset(SPEECH_TYPE_IDS, ", ", k)..JoinOffset(SPEECH_TYPE_IDS, ", ", k) + |SPEECH_TYPE_IDS[k]|]
            == SPEECH_TYPES[k].id
  {
    JoinHasElementAt(SPEECH_TYPE_IDS, ", ", k);
  }

  /** A missing key makes both service functions reject the same way
      whatever the remote call would answer: the call is never consulted. */
  lemma MissingKeyIgnoresReply(apiKey: Option<string>, text: string, voiceName: string,
                               s1: Reply<SpeechResponse>, s2: Reply<SpeechResponse>,
                               t1: Reply<TextResponse>, t2: Reply<TextResponse>)
    requires !HasApiKey(apiKey)
    ensures GenerateSpeech(apiKey, text, voiceName, s1) == GenerateSpeech(apiKey, text, voiceName, s2) == Err(MissingApiKey)
    ensures DetectSpeechType(apiKey, text, t1) == DetectSpeechType(apiKey, text, t2) == Err(MissingApiKey)
  {
  }

  /** No catalog speech-type id is empty or starts or ends with white space. */
  lemma SpeechTypeIdsUntrimmable(id: string)
    requires IsSpeechTypeId(id)
    ensures id != [] && !IsWhite(id[0]) && !IsWhite(id[|id| - 1])
  {
    var i :| 0 <= i < |SPEECH_TYPES| && SPEECH_TYPES[i].id == id;
    if i == 0 { } else if i == 1 { } else if i == 2 { } else if i == 3 { } else { }
  }

  /** A known id, with any white space before and after it, is returned
      without it. */
  lemma DetectKeepsPaddedKnownId(apiKey: Option<string>, text: string, id: string, left: string, right: string)
    requires HasApiKey(apiKey) && IsSpeechTypeId(id) && AllWhite(left) && AllWhite(right)
    ensures DetectSpeechType(apiKey, text, Answered(TextResponse(Some(left + id + right)))) == Ok(id)
  {
    SpeechTypeIdsUntrimmable(id);
    TrimPadded(left, id, right);
  }

  /** Trimming a non-empty core padded with white space on either side gives
      the core back. */
  lemma TrimPadded(left: string, core: string, right: string)
    requires AllWhite(left) && AllWhite(right)
    requires core != [] && !IsWhite(core[0]) && !IsWhite(core[|core| - 1])
    ensures Trim(left + core + right) == core
  {
    assert left + core + right == left + (core + right);
    TrimStartPadded(left, core + right);
    TrimEndPadded(core, right);
  }

  /** The prompt lists the speech-type options and then quotes the text, in
      that order. */
  lemma PromptMentionsOptionsAndText(text: string)
    ensures var p := DetectionPrompt(text);
      var o := |PROMPT_HEAD|;
      var t := o + |SpeechTypeOptions()| + |PROMPT_MIDDLE|;
      t + |text| < |p| &&
      p[o..o + |SpeechTypeOptions()|] == SpeechTypeOptions() &&
      p[t..t + |text|] == text &&
      p[|p| - 1] == '"'
  {
    var opts := SpeechTypeOptions();
    var p := DetectionPrompt(text);
    assert p == PROMPT_HEAD + opts + PROMPT_MIDDLE + text + "\"";
  }
}
