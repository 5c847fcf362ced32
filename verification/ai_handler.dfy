/** How a request about a transcript becomes a chat request for the language
    model (src/ai_handler.py): the context chosen for the request's time range,
    the two chat messages and the request body. */
module AiHandler {
  import opened Common
  import opened Text
  import opened Patterns
  import opened TimeRanges
  import opened Transcripts
  import opened Segments

  /** The full transcript is cut to this many characters. */
  const MaxContextChars: nat := 12000
  const TruncationMarker := "...[truncated for performance]"

  /** `transcript_data.get("transcript", "")`. */
  function FullTranscript(t: TranscriptData): string {
    t.transcript.GetOr("")
  }

  /** The size limit on the full transcript: a longer text keeps its first
      12000 characters and gains the marker. */
  function TruncateContext(context: string): (r: string)
    ensures |context| <= MaxContextChars ==> r == context
    ensures |context| > MaxContextChars ==>
      |r| == MaxContextChars + |TruncationMarker| && r[..MaxContextChars] == context[..MaxContextChars]
      && r[MaxContextChars..] == TruncationMarker
    ensures |r| <= MaxContextChars + |TruncationMarker|
  {
    if |context| > MaxContextChars then context[..MaxContextChars] + TruncationMarker else context
  }

  /** A truncated context is left alone by a second truncation. */
  lemma TruncateIdempotent(context: string)
    ensures TruncateContext(TruncateContext(context)) == TruncateContext(context)
  {
    var r := TruncateContext(context);
    if |context| > MaxContextChars {
      assert r[..MaxContextChars] + TruncationMarker == r;
    }
  }

  /** `_prepare_context`: the full (truncated) transcript when either bound is
      missing, otherwise the text of the segments overlapping the range. */
  function PrepareContext(t: TranscriptData, startTime: Option<real>, endTime: Option<real>): string {
    if startTime.None? || endTime.None? then TruncateContext(FullTranscript(t))
    else ExtractText(InRange(t, startTime.value, endTime.value))
  }

  /** The two cases of the context, with the size bound that only the first has. */
  lemma PrepareContextCases(t: TranscriptData, startTime: Option<real>, endTime: Option<real>)
    ensures startTime.None? || endTime.None? ==>
      PrepareContext(t, startTime, endTime) == TruncateContext(FullTranscript(t))
      && |PrepareContext(t, startTime, endTime)| <= MaxContextChars + |TruncationMarker|
      && (|FullTranscript(t)| <= MaxContextChars ==> PrepareContext(t, startTime, endTime) == FullTranscript(t))
    ensures startTime.Some? && endTime.Some? ==>
      PrepareContext(t, startTime, endTime) == ExtractText(InRange(t, startTime.value, endTime.value))
  {
  }

  /** What `process_any_request` builds from `extract_time_range` and
      `_prepare_context`: the context for a request, or the ValueError that
      escapes from reading its time range. */
  function ContextFor(request: string, t: TranscriptData): Result<string> {
    var r :- TimeRangeOf(request);
    Ok(PrepareContext(t, r.start, r.end))
  }

  /** A request without a time phrase gets the full transcript. */
  lemma NoTimePhraseUsesFullTranscript(request: string, t: TranscriptData)
    requires forall rule :: Search(rule, request).None?
    ensures ContextFor(request, t) == Ok(TruncateContext(FullTranscript(t)))
  {
    NoRangeIffNoPattern(request);
  }

  /** "last N minutes" gives a range without an end, so the request falls back
      to the full transcript rather than the last N minutes of it. */
  lemma LastMinutesUsesFullTranscript(request: string, t: TranscriptData)
    requires Search(FromTo, request).None? && Search(BetweenAnd, request).None?
    requires Search(Dash, request).None? && Search(Mark, request).None?
    requires Search(FirstLast, request).Some?
    requires var g := Search(FirstLast, request).value.groups; |g| > 0 && Lower(g[0]) == "last"
    ensures ContextFor(request, t) == Ok(TruncateContext(FullTranscript(t)))
  {
    FirstLastRule(request);
    FirstLastRange(Search(FirstLast, request).value.groups);
  }

  /** A request whose time range has both ends uses the segments, untruncated. */
  lemma RangedRequestUsesSegments(request: string, t: TranscriptData)
    requires TimeRangeOf(request).Ok?
    requires TimeRangeOf(request).value.start.Some? && TimeRangeOf(request).value.end.Some?
    ensures var r := TimeRangeOf(request).value;
      ContextFor(request, t) == Ok(ExtractText(InRange(t, r.start.value, r.end.value)))
  {
  }

  // ---------------------------------------------------------------------------
  // Messages and request body

  datatype Message = Message(role: string, content: string)

  const ContextHeader := "Context from video transcript:\n\n"
  const RequestHeader := "\n\nUser request: "

  /** The user message's content: the context, then the request, each after its header. */
  function UserContent(context: string, request: string): (c: string)
    ensures |c| == |ContextHeader| + |context| + |RequestHeader| + |request|
    ensures c[..|ContextHeader|] == ContextHeader
    ensures c[|ContextHeader|..|ContextHeader| + |context|] == context
    ensures c[|ContextHeader| + |context|..|ContextHeader| + |context| + |RequestHeader|] == RequestHeader
    ensures c[|c| - |request|..] == request
  {
    ContextHeader + context + RequestHeader + request
  }

  /** One system message, then the user message. */
  function BuildMessages(systemPrompt: string, context: string, request: string): (m: seq<Message>)
    ensures |m| == 2 && m[0] == Message("system", systemPrompt)
    ensures m[1].role == "user" && m[1].content == UserContent(context, request)
  {
    [Message("system", systemPrompt), Message("user", UserContent(context, request))]
  }

  /** Given the context's length, the user message gives back the context and the request. */
  lemma UserContentDecodes(context: string, request: string, context': string, request': string)
    requires |context| == |context'|
    requires UserContent(context, request) == UserContent(context', request')
    ensures context == context' && request == request'
  {
    var c := UserContent(context, request);
    assert |request| == |request'|;
  }

  /** The generation options: GPU settings when a GPU is in use, otherwise none. */
  function GpuOptions(usingGpu: bool): map<string, int> {
    if usingGpu then map["num_gpu" := 1, "num_thread" := 4] else map[]
  }

  datatype Payload = Payload(model: string, messages: seq<Message>, stream: bool, options: Option<map<string, int>>)

  /** The request body: `options` is added only when it is non-empty. */
  function BuildPayload(modelName: string, messages: seq<Message>, usingGpu: bool): (p: Payload)
    ensures p.model == modelName && p.messages == messages && !p.stream
    ensures p.options.Some? <==> usingGpu
    ensures p.options.Some? ==> p.options.value == map["num_gpu" := 1, "num_thread" := 4]
  {
    var options := GpuOptions(usingGpu);
    Payload(modelName, messages, false, if |options| > 0 then Some(options) else None)
  }

  /** `process_any_request` up to the HTTP call: the body sent for a request,
      or the ValueError raised while reading its time range. */
  function RequestPayload(request: string, t: TranscriptData, systemPrompt: string, modelName: string, usingGpu: bool): Result<Payload> {
    var context :- ContextFor(request, t);
    Ok(BuildPayload(modelName, BuildMessages(systemPrompt, context, request), usingGpu))
  }

  /** The body carries the request's context and the request itself, and fails
      exactly when reading the time range fails. */
  lemma RequestPayloadMeaning(request: string, t: TranscriptData, systemPrompt: string, modelName: string, usingGpu: bool)
    ensures RequestPayload(request, t, systemPrompt, modelName, usingGpu).Ok? <==> TimeRangeOf(request).Ok?
    ensures RequestPayload(request, t, systemPrompt, modelName, usingGpu).Ok? ==>
      var p := RequestPayload(request, t, systemPrompt, modelName, usingGpu).value;
      p.messages == BuildMessages(systemPrompt, ContextFor(request, t).value, request)
      && (p.options.Some? <==> usingGpu)
  {
  }
}
