/**
 Value-level specification of app/core/openai/chat_responses.py: how one stream of
 Responses events is turned into Chat Completions chunks (`iter_chat_chunks`) and into
 one completed message (`collect_chat_completion`).

 A JSON payload is represented by the fields the two consumers extract from it.
 */
module ChatSpec {
  import opened Options

  // ---------- Incoming events ----------

  datatype ArgumentsMode = Append | Replace

  /** What `_extract_tool_call_fields` and `_tool_call_arguments_mode` read from a payload. */
  datatype ToolFields = ToolFields(
    callId: Option<string>, name: Option<string>, arguments: Option<string>,
    toolType: Option<string>, mode: ArgumentsMode)

  datatype EventKind =
    | TextDelta       // response.output_text.delta
    | RefusalDelta    // response.refusal.delta
    | FailedEvent     // response.failed
    | ErrorEvent      // error
    | Completed       // response.completed
    | Incomplete      // response.incomplete
    | OtherEvent

  datatype UpstreamError = UpstreamError(code: string, message: string)

  /** Token counts of a response, as far as `_map_usage` looks at them. */
  datatype Usage = Usage(prompt: Option<int>, completion: Option<int>, total: Option<int>)

  /** The `response` object of a closing event. */
  datatype Response = Response(id: Option<string>, usage: Option<Usage>, incompleteReason: Option<string>)

  /** `delta`, `tool`, `error` and `response` are None where the payload holds no usable value. */
  datatype Payload = Payload(
    kind: EventKind, delta: Option<string>, tool: Option<ToolFields>,
    error: Option<UpstreamError>, response: Option<Response>)

  /** A line of the stream: one payload, or something the parser skips. */
  datatype Line = Skipped | Event(payload: Payload)

  predicate IsClosing(p: Payload) {
    p.kind == Completed || p.kind == Incomplete
  }

  predicate IsFailure(p: Payload) {
    p.kind == FailedEvent || p.kind == ErrorEvent
  }

  // ---------- Tool calls ----------

  datatype IndexView = IndexView(indexes: map<string, nat>, nextIndex: nat)

  const NO_INDEX := IndexView(map[], 0)

  predicate Truthy(s: Option<string>) {
    s.Some? && s.value != ""
  }

  function ToolCallKey(callId: Option<string>, name: Option<string>): Option<string> {
    if Truthy(callId) then Some("id:" + callId.value)
    else if Truthy(name) then Some("name:" + name.value)
    else None
  }

  /** The index a call is filed under, and the index table afterwards. */
  function IndexFor(ix: IndexView, callId: Option<string>, name: Option<string>): (IndexView, nat) {
    match ToolCallKey(callId, name)
    case None => (ix, 0)
    case Some(key) =>
      if key in ix.indexes then (ix, ix.indexes[key])
      else (IndexView(ix.indexes[key := ix.nextIndex], ix.nextIndex + 1), ix.nextIndex)
  }

  datatype CallView = CallView(
    index: nat, callId: Option<string>, name: Option<string>, arguments: string, toolType: string,
    emittedCallId: Option<string>, emittedName: Option<string>, emittedArguments: string,
    emittedToolType: Option<string>)

  function FreshCall(index: nat): CallView {
    CallView(index, None, None, "", "function", None, None, "", None)
  }

  function MergedArguments(current: string, f: ToolFields): string {
    match f.arguments
    case None => current
    case Some(text) => if f.mode == Replace then text else current + text
  }

  function ApplyDelta(c: CallView, f: ToolFields): CallView {
    c.(callId := if Truthy(f.callId) then f.callId else c.callId,
       name := if Truthy(f.name) then f.name else c.name,
       arguments := MergedArguments(c.arguments, f),
       toolType := if Truthy(f.toolType) then f.toolType.value else c.toolType)
  }

  /** The call list padded with fresh calls so that `index` is a position of it. */
  function Padded(calls: seq<CallView>, index: nat): (r: seq<CallView>)
    ensures index < |r| && calls <= r
    ensures |calls| <= index ==> |r| == index + 1
    ensures index < |calls| ==> r == calls
    ensures forall i :: |calls| <= i < |r| ==> r[i] == FreshCall(i)
    decreases index + 1 - |calls|
  {
    if index < |calls| then calls else Padded(calls + [FreshCall(|calls|)], index)
  }

  function Merge(calls: seq<CallView>, index: nat, f: ToolFields): seq<CallView> {
    var p := Padded(calls, index);
    p[index := ApplyDelta(p[index], f)]
  }

  function PendingValue(emitted: Option<string>, current: Option<string>): Option<string> {
    if current == None || emitted == current then None else current
  }

  /** Output may only append: a rewrite of bytes already sent yields nothing. */
  function PendingArguments(emitted: string, current: string): Option<string> {
    if current == "" || current == emitted then None
    else if emitted == "" then Some(current)
    else if emitted <= current then Some(current[|emitted|..])
    else None
  }

  datatype StreamDelta = StreamDelta(
    index: nat, callId: Option<string>, name: Option<string>, arguments: Option<string>, toolType: string)

  function EffectiveType(toolType: string): string {
    if toolType == "" then "function" else toolType
  }

  predicate NothingPending(c: CallView) {
    && PendingValue(c.emittedCallId, c.callId) == None
    && PendingValue(c.emittedName, c.name) == None
    && PendingArguments(c.emittedArguments, c.arguments) == None
    && c.emittedToolType == Some(EffectiveType(c.toolType))
  }

  /** What `build_stream_delta` returns ... */
  function PendingDelta(c: CallView): Option<StreamDelta> {
    if NothingPending(c) then None
    else Some(StreamDelta(c.index, PendingValue(c.emittedCallId, c.callId),
                          PendingValue(c.emittedName, c.name),
                          PendingArguments(c.emittedArguments, c.arguments),
                          EffectiveType(c.toolType)))
  }

  /** ... and the call it leaves behind. */
  function MarkEmitted(c: CallView): CallView {
    if NothingPending(c) then c
    else
      c.(emittedCallId := if PendingValue(c.emittedCallId, c.callId).Some? then c.callId else c.emittedCallId,
         emittedName := if PendingValue(c.emittedName, c.name).Some? then c.name else c.emittedName,
         emittedArguments :=
           if PendingArguments(c.emittedArguments, c.arguments).Some? then c.arguments else c.emittedArguments,
         emittedToolType := Some(EffectiveType(c.toolType)))
  }

  datatype Function = Function(name: Option<string>, arguments: Option<string>)

  function BuildFunction(name: Option<string>, arguments: Option<string>): Option<Function> {
    if name == None && arguments == None then None else Some(Function(name, arguments))
  }

  // ---------- Streamed chunks ----------

  datatype ToolChunk = ToolChunk(index: nat, id: Option<string>, toolType: string, function_: Option<Function>)

  datatype Chunk =
    | Delta(role: bool, content: Option<string>, refusal: Option<string>, toolCall: Option<ToolChunk>)
    | Finish(reason: string)
    | UsageChunk(usage: Option<Usage>)
    | ErrorChunk(error: UpstreamError)
    | Done

  function ToChunkCall(d: StreamDelta): ToolChunk {
    ToolChunk(d.index, d.callId, EffectiveType(d.toolType), BuildFunction(d.name, d.arguments))
  }

  datatype ChunkState = ChunkState(ix: IndexView, calls: seq<CallView>, sawToolCall: bool, sentRole: bool)

  const INITIAL := ChunkState(NO_INDEX, [], false, false)

  datatype StepResult = StepResult(state: ChunkState, chunks: seq<Chunk>, stopped: bool)

  function TextPart(s: ChunkState, p: Payload): (ChunkState, seq<Chunk>) {
    match p.kind
    case TextDelta => (s.(sentRole := true), [Delta(!s.sentRole, p.delta, None, None)])
    case RefusalDelta => (s.(sentRole := true), [Delta(!s.sentRole, None, p.delta, None)])
    case _ => (s, [])
  }

  /** Emits whatever call `i` still has to send. */
  function EmitCall(s: ChunkState, i: nat): (ChunkState, seq<Chunk>)
    requires i < |s.calls|
  {
    match PendingDelta(s.calls[i])
    case None => (s, [])
    case Some(d) =>
      (s.(calls := s.calls[i := MarkEmitted(s.calls[i])], sawToolCall := true, sentRole := true),
       [Delta(!s.sentRole, None, None, Some(ToChunkCall(d)))])
  }

  function ToolPart(s: ChunkState, p: Payload): (ChunkState, seq<Chunk>) {
    match p.tool
    case None => (s, [])
    case Some(f) =>
      var (ix, index) := IndexFor(s.ix, f.callId, f.name);
      EmitCall(s.(ix := ix, calls := Merge(s.calls, index, f)), index)
  }

  /** The loop of a closing event over all calls, from call `i` on. */
  function Flush(s: ChunkState, i: nat): (r: (ChunkState, seq<Chunk>))
    decreases |s.calls| - i
  {
    if i >= |s.calls| then (s, [])
    else
      var (s1, out1) := EmitCall(s, i);
      var (s2, out2) := Flush(s1, i + 1);
      (s2, out1 + out2)
  }

  function MapUsage(u: Option<Usage>): Option<Usage> {
    if u == None || (u.value.prompt == None && u.value.completion == None && u.value.total == None) then None else u
  }

  function FinishFromIncomplete(r: Option<Response>): string {
    if r == None || r.value.incompleteReason == None then "stop"
    else
      var reason := r.value.incompleteReason.value;
      if reason == "max_output_tokens" || reason == "max_tokens" then "length"
      else if reason == "content_filter" then "content_filter"
      else "stop"
  }

  function ResponseUsage(r: Option<Response>): Option<Usage> {
    if r == None then None else MapUsage(r.value.usage)
  }

  function ClosingChunks(sawToolCall: bool, p: Payload, includeUsage: bool): seq<Chunk> {
    var reason :=
      if sawToolCall then "tool_calls"
      else if p.kind == Incomplete then FinishFromIncomplete(p.response)
      else "stop";
    [Finish(reason)] + (if includeUsage then [UsageChunk(ResponseUsage(p.response))] else []) + [Done]
  }

  /** One payload through the body of the `iter_chat_chunks` loop. */
  function StepEvent(s: ChunkState, p: Payload, includeUsage: bool): StepResult {
    var (s1, out1) := TextPart(s, p);
    var (s2, out2) := ToolPart(s1, p);
    if IsFailure(p) && p.error.Some? then
      StepResult(s2, out1 + out2 + [ErrorChunk(p.error.value), Done], true)
    else if IsClosing(p) then
      var (s3, out3) := Flush(s2, 0);
      StepResult(s3, out1 + out2 + out3 + ClosingChunks(s3.sawToolCall, p, includeUsage), true)
    else
      StepResult(s2, out1 + out2, false)
  }

  function StepLine(s: ChunkState, line: Line, includeUsage: bool): StepResult {
    match line
    case Skipped => StepResult(s, [], false)
    case Event(p) => StepEvent(s, p, includeUsage)
  }

  /** `iter_chat_chunks` on a list of lines, from state `s`. */
  function IterChunks(lines: seq<Line>, s: ChunkState, includeUsage: bool): StepResult
    decreases |lines|
  {
    if lines == [] then StepResult(s, [], false)
    else
      var r := StepLine(s, lines[0], includeUsage);
      if r.stopped then r
      else
        var rest := IterChunks(lines[1..], r.state, includeUsage);
        StepResult(rest.state, r.chunks + rest.chunks, rest.stopped)
  }

  // ---------- The collecting consumer ----------

  datatype Collected = Collected(
    ix: IndexView, calls: seq<CallView>, content: string, refusal: string,
    responseId: Option<string>, usage: Option<Usage>, incompleteReason: Option<string>)

  const NOTHING_COLLECTED := Collected(NO_INDEX, [], "", "", None, None, None)

  datatype CollectOutcome = Errored(error: Option<UpstreamError>) | Gathered(acc: Collected)

  function Text(s: Option<string>): string {
    if s.Some? then s.value else ""
  }

  function CollectTool(a: Collected, p: Payload): Collected {
    match p.tool
    case None => a
    case Some(f) =>
      var (ix, index) := IndexFor(a.ix, f.callId, f.name);
      a.(ix := ix, calls := Merge(a.calls, index, f))
  }

  function CollectClosing(a: Collected, p: Payload): Collected {
    match p.response
    case None => a
    case Some(r) =>
      a.(responseId := if r.id.Some? then r.id else a.responseId,
         usage := r.usage,
         incompleteReason := if p.kind == Incomplete then Some(FinishFromIncomplete(p.response)) else a.incompleteReason)
  }

  function CollectEvent(a: Collected, p: Payload): CollectOutcome {
    var a1 := match p.kind
              case TextDelta => a.(content := a.content + Text(p.delta))
              case RefusalDelta => a.(refusal := a.refusal + Text(p.delta))
              case _ => a;
    var a2 := CollectTool(a1, p);
    if IsFailure(p) then Errored(p.error)
    else if IsClosing(p) then Gathered(CollectClosing(a2, p))
    else Gathered(a2)
  }

  function CollectLines(lines: seq<Line>, a: Collected): CollectOutcome
    decreases |lines|
  {
    if lines == [] then Gathered(a)
    else
      match lines[0]
      case Skipped => CollectLines(lines[1..], a)
      case Event(p) =>
        match CollectEvent(a, p)
        case Errored(e) => Errored(e)
        case Gathered(a1) => CollectLines(lines[1..], a1)
  }

  datatype MessageCall = MessageCall(id: Option<string>, toolType: string, function_: Option<Function>)

  /** The visible part of a chat completion: the message and its finish reason. */
  datatype Message = Message(
    content: Option<string>, refusal: Option<string>, toolCalls: seq<MessageCall>, finishReason: Option<string>)

  function NonEmpty(s: string): Option<string> {
    if s == "" then None else Some(s)
  }

  function ToMessageCall(c: CallView): Option<MessageCall> {
    var f := BuildFunction(c.name, NonEmpty(c.arguments));
    if c.callId == None && f == None then None
    else Some(MessageCall(c.callId, EffectiveType(c.toolType), f))
  }

  function CompactCalls(calls: seq<CallView>): seq<MessageCall> {
    if calls == [] then []
    else
      var rest := CompactCalls(calls[..|calls| - 1]);
      match ToMessageCall(calls[|calls| - 1])
      case None => rest
      case Some(m) => rest + [m]
  }

  function AssembleMessage(content: string, refusal: string, calls: seq<MessageCall>, finish: Option<string>): Message {
    var shownContent := if (calls != [] || refusal != "") && content == "" then None else Some(content);
    Message(shownContent, NonEmpty(refusal), calls, finish)
  }

  function CollectedMessage(a: Collected): Message {
    var calls := CompactCalls(a.calls);
    var finish := if calls != [] then "tool_calls"
                  else if a.incompleteReason.Some? && a.incompleteReason.value != "" then a.incompleteReason.value
                  else "stop";
    AssembleMessage(a.content, a.refusal, calls, Some(finish))
  }

  // ---------- A client that reassembles the chunks ----------

  datatype ReplayCall = ReplayCall(id: Option<string>, name: Option<string>, arguments: string, toolType: string)

  const EMPTY_REPLAY_CALL := ReplayCall(None, None, "", "function")

  datatype Replayed = Replayed(
    content: string, refusal: string, calls: seq<ReplayCall>, finish: Option<string>, usage: Option<Usage>)

  const NOTHING_REPLAYED := Replayed("", "", [], None, None)

  function PaddedReplay(calls: seq<ReplayCall>, index: nat): (r: seq<ReplayCall>)
    ensures index < |r| && calls <= r
    ensures |calls| <= index ==> |r| == index + 1
    ensures index < |calls| ==> r == calls
    ensures forall i :: |calls| <= i < |r| ==> r[i] == EMPTY_REPLAY_CALL
    decreases index + 1 - |calls|
  {
    if index < |calls| then calls else PaddedReplay(calls + [EMPTY_REPLAY_CALL], index)
  }

  /** Chat semantics of a tool-call delta: id, name and type overwrite, arguments append. */
  function ReplayToolChunk(c: ReplayCall, t: ToolChunk): ReplayCall {
    var f := if t.function_.Some? then t.function_.value else Function(None, None);
    ReplayCall(if t.id.Some? then t.id else c.id,
               if f.name.Some? then f.name else c.name,
               c.arguments + Text(f.arguments),
               t.toolType)
  }

  function ReplayChunk(r: Replayed, c: Chunk): Replayed {
    match c
    case Delta(_, content, refusal, toolCall) =>
      var calls := match toolCall
                   case None => r.calls
                   case Some(t) =>
                     var p := PaddedReplay(r.calls, t.index);
                     p[t.index := ReplayToolChunk(p[t.index], t)];
      r.(content := r.content + Text(content), refusal := r.refusal + Text(refusal), calls := calls)
    case Finish(reason) => r.(finish := Some(reason))
    case UsageChunk(u) => r.(usage := u)
    case _ => r
  }

  function ReplayFrom(r: Replayed, chunks: seq<Chunk>): Replayed
    decreases |chunks|
  {
    if chunks == [] then r else ReplayFrom(ReplayChunk(r, chunks[0]), chunks[1..])
  }

  function Replay(chunks: seq<Chunk>): Replayed {
    ReplayFrom(NOTHING_REPLAYED, chunks)
  }

  function ReplayedCall(c: ReplayCall): MessageCall {
    MessageCall(c.id, c.toolType, BuildFunction(c.name, NonEmpty(c.arguments)))
  }

  function ReplayedMessage(r: Replayed): Message {
    AssembleMessage(r.content, r.refusal, seq(|r.calls|, i requires 0 <= i < |r.calls| => ReplayedCall(r.calls[i])),
                    r.finish)
  }
}
