/**
 The objects of app/core/openai/chat_responses.py that are updated in place, and the loops
 over the event stream, each proved against the value-level specification in ChatSpec.
 */
module ChatObjects {
  import opened Options
  import opened ChatSpec
  import opened ChatOrder

  class ToolCallIndex {
    var indexes: map<string, nat>
    var nextIndex: nat

    constructor ()
      ensures View() == NO_INDEX
    {
      indexes, nextIndex := map[], 0;
    }

    ghost function View(): IndexView
      reads this
    {
      IndexView(indexes, nextIndex)
    }

    method IndexFor(callId: Option<string>, name: Option<string>) returns (index: nat)
      modifies this
      ensures (View(), index) == ChatSpec.IndexFor(old(View()), callId, name)
    {
      var key := ToolCallKey(callId, name);
      if key == None {
        return 0;
      }
      if key.value !in indexes {
        indexes := indexes[key.value := nextIndex];
        nextIndex := nextIndex + 1;
      }
      return indexes[key.value];
    }
  }

  class ToolCallState {
    const index: nat
    var callId: Option<string>
    var name: Option<string>
    var arguments: string
    var toolType: string
    var emittedCallId: Option<string>
    var emittedName: Option<string>
    var emittedArguments: string
    var emittedToolType: Option<string>

    constructor (index: nat)
      ensures View() == FreshCall(index)
    {
      this.index := index;
      callId, name, arguments, toolType := None, None, "", "function";
      emittedCallId, emittedName, emittedArguments, emittedToolType := None, None, "", None;
    }

    ghost function View(): CallView
      reads this
    {
      CallView(index, callId, name, arguments, toolType,
               emittedCallId, emittedName, emittedArguments, emittedToolType)
    }

    method ApplyDelta(f: ToolFields)
      modifies this
      ensures View() == ChatSpec.ApplyDelta(old(View()), f)
    {
      if Truthy(f.callId) {
        callId := f.callId;
      }
      if Truthy(f.name) {
        name := f.name;
      }
      if f.arguments.Some? {
        if f.mode == Replace {
          arguments := f.arguments.value;
        } else if f.arguments.value != "" {
          arguments := arguments + f.arguments.value;
        } else {
          assert arguments + "" == arguments;
        }
      }
      if Truthy(f.toolType) {
        toolType := f.toolType.value;
      }
    }

    method BuildStreamDelta() returns (d: Option<StreamDelta>)
      modifies this
      ensures d == PendingDelta(old(View()))
      ensures View() == MarkEmitted(old(View()))
    {
      var pendingId := PendingValue(emittedCallId, callId);
      var pendingName := PendingValue(emittedName, name);
      var pendingArguments := PendingArguments(emittedArguments, arguments);
      var effective := EffectiveType(toolType);
      if pendingId == None && pendingName == None && pendingArguments == None && emittedToolType == Some(effective) {
        return None;
      }
      if pendingId != None {
        emittedCallId := callId;
      }
      if pendingName != None {
        emittedName := name;
      }
      if pendingArguments != None {
        emittedArguments := arguments;
      }
      emittedToolType := Some(effective);
      d := Some(StreamDelta(index, pendingId, pendingName, pendingArguments, effective));
    }

    method ToMessageToolCall() returns (m: Option<MessageCall>)
      ensures m == ToMessageCall(View())
    {
      var f := BuildFunction(name, NonEmpty(arguments));
      if callId == None && f == None {
        return None;
      }
      m := Some(MessageCall(callId, EffectiveType(toolType), f));
    }
  }

  ghost function Views(calls: seq<ToolCallState>): (r: seq<CallView>)
    reads set c | c in calls
    ensures |r| == |calls|
    ensures forall i :: 0 <= i < |calls| ==> r[i] == calls[i].View()
  {
    seq(|calls|, i requires 0 <= i < |calls| reads set c | c in calls => calls[i].View())
  }

  ghost predicate Distinct(calls: seq<ToolCallState>) {
    forall i, j :: 0 <= i < j < |calls| ==> calls[i] != calls[j]
  }

  /** The grown list holds the old objects, then new ones. */
  twostate predicate Grown(calls: seq<ToolCallState>, new grown: seq<ToolCallState>) {
    && calls <= grown
    && Distinct(grown)
    && forall i :: |calls| <= i < |grown| ==> fresh(grown[i])
  }

  /** Appends fresh calls until `index` is a position of the list. */
  method PadCalls(calls: seq<ToolCallState>, index: nat) returns (grown: seq<ToolCallState>)
    requires Distinct(calls)
    ensures Grown(calls, grown) && index < |grown|
    ensures Views(grown) == Padded(old(Views(calls)), index)
  {
    hide Padded;
    grown := calls;
    while |grown| <= index
      invariant Grown(calls, grown)
      invariant |calls| <= index ==> |grown| <= index + 1
      invariant index < |calls| ==> grown == calls
      invariant forall i :: |calls| <= i < |grown| ==> grown[i].View() == FreshCall(i)
      decreases index + 1 - |grown|
    {
      var call := new ToolCallState(|grown|);
      grown := grown + [call];
    }
    assert forall i :: 0 <= i < |calls| ==> Views(grown)[i] == old(Views(calls))[i];
  }

  method MergeToolCallDelta(calls: seq<ToolCallState>, index: nat, f: ToolFields)
    returns (grown: seq<ToolCallState>)
    requires Distinct(calls)
    modifies calls
    ensures Grown(calls, grown) && index < |grown|
    ensures Views(grown) == Merge(old(Views(calls)), index, f)
  {
    grown := PadCalls(calls, index);
    ghost var padded := Views(grown);
    grown[index].ApplyDelta(f);
    assert Views(grown) == padded[index := ChatSpec.ApplyDelta(padded[index], f)];
  }

  lemma {:induction false} FlushStep(s: ChunkState, i: nat)
    requires i <= |s.calls|
    ensures if i == |s.calls| then Flush(s, i) == (s, [])
            else
              var (s1, out1) := EmitCall(s, i);
              Flush(s, i) == (Flush(s1, i + 1).0, out1 + Flush(s1, i + 1).1)
  {
    hide EmitCall;
  }

  class ChatChunkState {
    const toolIndex: ToolCallIndex
    var toolCalls: seq<ToolCallState>
    var sawToolCall: bool
    var sentRole: bool

    constructor ()
      ensures Valid() && View() == INITIAL
      ensures fresh(toolIndex) && toolCalls == []
    {
      toolIndex := new ToolCallIndex();
      toolCalls, sawToolCall, sentRole := [], false, false;
    }

    ghost predicate Valid()
      reads this
    {
      Distinct(toolCalls)
    }

    ghost function View(): ChunkState
      reads this, toolIndex, set c | c in toolCalls
    {
      ChunkState(toolIndex.View(), Views(toolCalls), sawToolCall, sentRole)
    }

    method EmitText(p: Payload) returns (out: seq<Chunk>)
      requires Valid()
      modifies this`sentRole
      ensures Valid() && (View(), out) == TextPart(old(View()), p)
    {
      out := [];
      if p.kind == TextDelta || p.kind == RefusalDelta {
        out := [if p.kind == RefusalDelta then Delta(!sentRole, None, p.delta, None)
                else Delta(!sentRole, p.delta, None, None)];
        sentRole := true;
      }
    }

    /** Sends what call `i` has pending. */
    method EmitPending(i: nat) returns (out: seq<Chunk>)
      requires Valid() && i < |toolCalls|
      modifies this`sentRole, this`sawToolCall, toolCalls[i]
      ensures Valid() && (View(), out) == EmitCall(old(View()), i)
    {
      ghost var before := Views(toolCalls);
      var d := toolCalls[i].BuildStreamDelta();
      assert Views(toolCalls) == before[i := MarkEmitted(before[i])];
      out := [];
      if d.Some? {
        sawToolCall := true;
        out := [Delta(!sentRole, None, None, Some(ToChunkCall(d.value)))];
        sentRole := true;
      } else {
        assert Views(toolCalls) == before;
      }
    }

    method EmitTool(p: Payload) returns (out: seq<Chunk>)
      requires Valid()
      modifies this, toolIndex, toolCalls
      ensures Valid() && Grown(old(toolCalls), toolCalls)
      ensures (View(), out) == ToolPart(old(View()), p)
    {
      hide Merge;
      hide EmitCall;
      out := [];
      if p.tool.Some? {
        var f := p.tool.value;
        var index := toolIndex.IndexFor(f.callId, f.name);
        toolCalls := MergeToolCallDelta(toolCalls, index, f);
        out := EmitPending(index);
      }
    }

    method FlushCalls() returns (out: seq<Chunk>)
      requires Valid()
      modifies this`sentRole, this`sawToolCall, toolCalls
      ensures Valid() && (View(), out) == Flush(old(View()), 0)
    {
      hide EmitCall;
      hide Flush;
      out := [];
      var i := 0;
      assert out + Flush(View(), 0).1 == Flush(View(), 0).1;
      while i < |toolCalls|
        invariant 0 <= i <= |toolCalls| && Valid()
        invariant var rest := Flush(View(), i);
                  Flush(old(View()), 0) == (rest.0, out + rest.1)
      {
        FlushStep(View(), i);
        ghost var (s1, out1) := EmitCall(View(), i);
        ghost var rest := Flush(s1, i + 1);
        assert out + (out1 + rest.1) == (out + out1) + rest.1;
        var more := EmitPending(i);
        out := out + more;
        i := i + 1;
      }
      FlushStep(View(), i);
      assert out + [] == out;
    }

    /** One payload through the loop body. */
    method Process(p: Payload, includeUsage: bool) returns (out: seq<Chunk>, stopped: bool)
      requires Valid()
      modifies this, toolIndex, toolCalls
      ensures Valid() && Grown(old(toolCalls), toolCalls)
      ensures StepResult(View(), out, stopped) == StepEvent(old(View()), p, includeUsage)
    {
      out := EmitText(p);
      var more := EmitTool(p);
      out := out + more;
      if IsFailure(p) && p.error.Some? {
        return out + [ErrorChunk(p.error.value), Done], true;
      }
      if IsClosing(p) {
        var rest := FlushCalls();
        out := out + rest + ClosingChunks(sawToolCall, p, includeUsage);
        return out, true;
      }
      return out, false;
    }
  }

  /** The result of a run that has emitted `out`, stands in state `s` and has `rest` still to read. */
  ghost function Resumed(out: seq<Chunk>, s: ChunkState, rest: seq<Line>, includeUsage: bool): StepResult {
    var r := IterChunks(rest, s, includeUsage);
    StepResult(r.state, out + r.chunks, r.stopped)
  }

  lemma {:induction false} ResumeStep(out: seq<Chunk>, s: ChunkState, lines: seq<Line>, i: nat, includeUsage: bool)
    requires i < |lines|
    ensures var r := StepLine(s, lines[i], includeUsage);
            Resumed(out, s, lines[i..], includeUsage) ==
            if r.stopped then StepResult(r.state, out + r.chunks, true)
            else Resumed(out + r.chunks, r.state, lines[i + 1..], includeUsage)
  {
    assert lines[i..][1..] == lines[i + 1..];
    var r := StepLine(s, lines[i], includeUsage);
    var rest := IterChunks(lines[i + 1..], r.state, includeUsage);
    assert out + (r.chunks + rest.chunks) == (out + r.chunks) + rest.chunks;
  }

  lemma {:induction false} ResumeEnds(out: seq<Chunk>, s: ChunkState, lines: seq<Line>, includeUsage: bool)
    ensures Resumed([], s, lines[0..], includeUsage) == IterChunks(lines, s, includeUsage)
    ensures Resumed(out, s, lines[|lines|..], includeUsage) == StepResult(s, out, false)
  {
    assert lines[0..] == lines && lines[|lines|..] == [];
    var r := IterChunks(lines, s, includeUsage);
    assert [] + r.chunks == r.chunks;
  }

  method IterChatChunks(lines: seq<Line>, state: ChatChunkState, includeUsage: bool) returns (out: seq<Chunk>)
    requires state.Valid()
    modifies state, state.toolIndex, state.toolCalls
    ensures state.Valid() && Grown(old(state.toolCalls), state.toolCalls)
    ensures out == IterChunks(lines, old(state.View()), includeUsage).chunks
    ensures state.View() == IterChunks(lines, old(state.View()), includeUsage).state
  {
    hide IterChunks;
    hide StepEvent;
    hide Resumed;
    out := [];
    ghost var s := state.View();
    ghost var whole := IterChunks(lines, s, includeUsage);
    ResumeEnds(out, s, lines, includeUsage);
    for i := 0 to |lines|
      invariant state.Valid() && Grown(old(state.toolCalls), state.toolCalls)
      invariant s == state.View()
      invariant whole == Resumed(out, s, lines[i..], includeUsage)
    {
      ResumeStep(out, s, lines, i, includeUsage);
      if lines[i].Event? {
        var more, stopped := state.Process(lines[i].payload, includeUsage);
        out, s := out + more, StepEvent(s, lines[i].payload, includeUsage).state;
        if stopped {
          return;
        }
      } else {
        assert out + [] == out;
      }
    }
    ResumeEnds(out, s, lines, includeUsage);
  }

  /** The inner loop of `stream_chat_chunks`: forward chunks, stop after `[DONE]`. */
  method ForwardThroughDone(chunks: seq<Chunk>) returns (out: seq<Chunk>, terminal: bool)
    ensures out == ThroughDone(chunks) && terminal == (Done in out)
  {
    out, terminal := [], false;
    for k := 0 to |chunks|
      invariant !terminal && Done !in out
      invariant ThroughDone(chunks) == out + ThroughDone(chunks[k..])
    {
      assert chunks[k..][1..] == chunks[k + 1..];
      assert out + ([chunks[k]] + ThroughDone(chunks[k + 1..])) == (out + [chunks[k]]) + ThroughDone(chunks[k + 1..]);
      out := out + [chunks[k]];
      if chunks[k] == Done {
        return out, true;
      }
    }
  }

  /** Feeds the lines one at a time with one shared state and stops forwarding at `[DONE]`. */
  method StreamChatChunks(lines: seq<Line>, includeUsage: bool) returns (out: seq<Chunk>)
    ensures out == IterChunks(lines, INITIAL, includeUsage).chunks
  {
    hide IterChunks;
    hide ThroughDone;
    hide StreamLines;
    var state := new ChatChunkState();
    out := [];
    var terminal := false;
    assert lines[0..] == lines;
    for i := 0 to |lines|
      invariant fresh(state) && fresh(state.toolIndex) && state.Valid()
      invariant forall k :: 0 <= k < |state.toolCalls| ==> fresh(state.toolCalls[k])
      invariant StreamLines(lines, INITIAL, false, includeUsage).chunks
             == out + StreamLines(lines[i..], state.View(), terminal, includeUsage).chunks
    {
      StreamLinesStep(lines, i, state.View(), terminal, includeUsage);
      if !terminal {
        var chunks := IterChatChunks([lines[i]], state, includeUsage);
        var forwarded, done := ForwardThroughDone(chunks);
        out, terminal := out + forwarded, done;
      }
    }
    StreamLinesStep(lines, |lines|, state.View(), terminal, includeUsage);
    LineByLineEqualsWhole(lines, INITIAL, includeUsage);
  }

  lemma {:induction false} StreamLinesStep(lines: seq<Line>, i: nat, s: ChunkState, terminal: bool, includeUsage: bool)
    requires i <= |lines|
    ensures StreamLines(lines[i..], s, terminal, includeUsage).chunks ==
            if i == |lines| then []
            else if terminal then StreamLines(lines[i + 1..], s, true, includeUsage).chunks
            else
              var r := IterChunks([lines[i]], s, includeUsage);
              var out := ThroughDone(r.chunks);
              out + StreamLines(lines[i + 1..], r.state, Done in out, includeUsage).chunks
  {
    hide IterChunks;
    hide ThroughDone;
    assert i < |lines| ==> lines[i..][1..] == lines[i + 1..];
  }

  datatype CompletionResult =
    | FailedCompletion(error: Option<UpstreamError>)
    | Completion(message: Message, id: string, usage: Option<Usage>)

  function FinishedCompletion(outcome: CollectOutcome): CompletionResult {
    match outcome
    case Errored(e) => FailedCompletion(e)
    case Gathered(a) =>
      Completion(CollectedMessage(a), if Truthy(a.responseId) then a.responseId.value else "chatcmpl_temp",
                 MapUsage(a.usage))
  }

  method CompactToolCalls(calls: seq<ToolCallState>) returns (cleaned: seq<MessageCall>)
    ensures cleaned == CompactCalls(Views(calls))
  {
    cleaned := [];
    assert Views(calls)[..|calls|] == Views(calls);
    for i := 0 to |calls|
      invariant cleaned == CompactCalls(Views(calls)[..i])
    {
      var m := calls[i].ToMessageToolCall();
      assert Views(calls)[..i + 1][..i] == Views(calls)[..i];
      if m.Some? {
        cleaned := cleaned + [m.value];
      }
    }
  }

  method CollectChatCompletion(lines: seq<Line>) returns (result: CompletionResult)
    ensures result == FinishedCompletion(CollectLines(lines, NOTHING_COLLECTED))
  {
    hide Merge;
    var content, refusal := "", "";
    var responseId: Option<string> := None;
    var usage: Option<Usage> := None;
    var incompleteReason: Option<string> := None;
    var toolIndex := new ToolCallIndex();
    var toolCalls: seq<ToolCallState> := [];
    for i := 0 to |lines|
      invariant fresh(toolIndex) && Distinct(toolCalls)
      invariant forall k :: 0 <= k < |toolCalls| ==> fresh(toolCalls[k])
      invariant CollectLines(lines, NOTHING_COLLECTED) == CollectLines(lines[i..],
                  Collected(toolIndex.View(), Views(toolCalls), content, refusal, responseId, usage, incompleteReason))
    {
      assert lines[i..][1..] == lines[i + 1..];
      if lines[i].Event? {
        var p := lines[i].payload;
        if p.kind == TextDelta {
          if p.delta.Some? {
            content := content + p.delta.value;
          } else {
            assert content + "" == content;
          }
        }
        if p.kind == RefusalDelta {
          if p.delta.Some? {
            refusal := refusal + p.delta.value;
          } else {
            assert refusal + "" == refusal;
          }
        }
        if p.tool.Some? {
          var f := p.tool.value;
          var index := toolIndex.IndexFor(f.callId, f.name);
          toolCalls := MergeToolCallDelta(toolCalls, index, f);
        }
        if IsFailure(p) {
          return FailedCompletion(p.error);
        }
        if IsClosing(p) {
          if p.response.Some? {
            var r := p.response.value;
            if r.id.Some? {
              responseId := r.id;
            }
            usage := r.usage;
            if p.kind == Incomplete {
              incompleteReason := Some(FinishFromIncomplete(p.response));
            }
          }
        }
      }
    }
    var calls := CompactToolCalls(toolCalls);
    var finish := if calls != [] then "tool_calls"
                  else if Truthy(incompleteReason) then incompleteReason.value else "stop";
    result := Completion(AssembleMessage(content, refusal, calls, Some(finish)),
                         if Truthy(responseId) then responseId.value else "chatcmpl_temp", MapUsage(usage));
  }
}
