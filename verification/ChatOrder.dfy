/**
 Shape of the chunk stream produced by app/core/openai/chat_responses.py, for every event
 sequence: one role, one `[DONE]`, failures, and feeding the lines one at a time.
 */
module ChatOrder {
  import opened Options
  import opened ChatSpec
  import opened ChatAgreement
  import opened ChatTrailing

  // ---------- The role marker ----------

  /** `chunks[k]` is the first delta of the list. */
  predicate FirstDelta(chunks: seq<Chunk>, k: nat)
    requires k < |chunks|
  {
    chunks[k].Delta? && forall j :: 0 <= j < k ==> !chunks[j].Delta?
  }

  predicate HasDelta(chunks: seq<Chunk>) {
    exists k :: 0 <= k < |chunks| && chunks[k].Delta?
  }

  /** Deltas carry the role exactly at the first delta after a state that had not sent it. */
  predicate RolesFrom(sent: bool, chunks: seq<Chunk>) {
    forall k :: 0 <= k < |chunks| && chunks[k].Delta? ==> (chunks[k].role <==> !sent && FirstDelta(chunks, k))
  }

  predicate RoleStep(sent: bool, chunks: seq<Chunk>, sent': bool) {
    RolesFrom(sent, chunks) && sent' == (sent || HasDelta(chunks))
  }

  lemma {:induction false} RoleStepAppend(sent: bool, xs: seq<Chunk>, sent1: bool, ys: seq<Chunk>, sent2: bool)
    requires RoleStep(sent, xs, sent1) && RoleStep(sent1, ys, sent2)
    ensures RoleStep(sent, xs + ys, sent2)
  {
    var all := xs + ys;
    forall k | 0 <= k < |all| && all[k].Delta?
      ensures all[k].role <==> !sent && FirstDelta(all, k)
    {
      if k < |xs| {
        assert forall j :: 0 <= j <= k ==> all[j] == xs[j];
        assert FirstDelta(all, k) <==> FirstDelta(xs, k);
      } else {
        assert all[k] == ys[k - |xs|];
        if HasDelta(xs) {
          var j :| 0 <= j < |xs| && xs[j].Delta?;
          assert all[j].Delta?;
        } else {
          assert FirstDelta(all, k) ==> FirstDelta(ys, k - |xs|) by {
            forall j | 0 <= j < k - |xs| ensures FirstDelta(all, k) ==> !ys[j].Delta? {
              assert all[j + |xs|] == ys[j];
            }
          }
          assert FirstDelta(ys, k - |xs|) ==> FirstDelta(all, k);
        }
      }
    }
    if HasDelta(xs) {
      var j :| 0 <= j < |xs| && xs[j].Delta?;
      assert all[j].Delta?;
    } else if HasDelta(ys) {
      var j :| 0 <= j < |ys| && ys[j].Delta?;
      assert all[j + |xs|].Delta?;
    }
  }

  lemma {:induction false} QuietRoleStep(sent: bool, chunks: seq<Chunk>)
    requires forall k :: 0 <= k < |chunks| ==> !chunks[k].Delta?
    ensures RoleStep(sent, chunks, sent)
  {
  }

  lemma {:induction false} SingleRoleStep(sent: bool, c: Chunk)
    requires c.Delta? && c.role == !sent
    ensures RoleStep(sent, [c], true)
  {
    assert FirstDelta([c], 0);
    assert [c][0].Delta?;
  }

  lemma {:induction false} EmitCallRole(s: ChunkState, i: nat)
    requires i < |s.calls|
    ensures RoleStep(s.sentRole, EmitCall(s, i).1, EmitCall(s, i).0.sentRole)
  {
    if PendingDelta(s.calls[i]) == None {
      QuietRoleStep(s.sentRole, []);
    } else {
      SingleRoleStep(s.sentRole, EmitCall(s, i).1[0]);
    }
  }

  lemma {:induction false} FlushRole(s: ChunkState, i: nat)
    ensures RoleStep(s.sentRole, Flush(s, i).1, Flush(s, i).0.sentRole)
    decreases |s.calls| - i
  {
    if i >= |s.calls| {
      QuietRoleStep(s.sentRole, []);
    } else {
      var (s1, out1) := EmitCall(s, i);
      EmitCallRole(s, i);
      FlushRole(s1, i + 1);
      var (s2, out2) := Flush(s1, i + 1);
      RoleStepAppend(s.sentRole, out1, s1.sentRole, out2, s2.sentRole);
    }
  }

  lemma {:induction false} TextPartRole(s: ChunkState, p: Payload)
    ensures RoleStep(s.sentRole, TextPart(s, p).1, TextPart(s, p).0.sentRole)
  {
    var out := TextPart(s, p).1;
    if out == [] {
      QuietRoleStep(s.sentRole, out);
    } else {
      SingleRoleStep(s.sentRole, out[0]);
      assert out == [out[0]];
    }
  }

  lemma {:induction false} ToolPartRole(s: ChunkState, p: Payload)
    ensures RoleStep(s.sentRole, ToolPart(s, p).1, ToolPart(s, p).0.sentRole)
  {
    if p.tool.Some? {
      var (ix, index) := IndexFor(s.ix, p.tool.value.callId, p.tool.value.name);
      EmitCallRole(s.(ix := ix, calls := Merge(s.calls, index, p.tool.value)), index);
    } else {
      QuietRoleStep(s.sentRole, []);
    }
  }

  lemma {:induction false} StepRole(s: ChunkState, p: Payload, includeUsage: bool)
    ensures var r := StepEvent(s, p, includeUsage);
            RoleStep(s.sentRole, r.chunks, r.state.sentRole)
  {
    hide TextPart;
    hide ToolPart;
    hide RoleStep;
    hide Flush;
    var (s1, out1) := TextPart(s, p);
    TextPartRole(s, p);
    var (s2, out2) := ToolPart(s1, p);
    ToolPartRole(s1, p);
    RoleStepAppend(s.sentRole, out1, s1.sentRole, out2, s2.sentRole);
    if IsFailure(p) && p.error.Some? {
      var tail := [ErrorChunk(p.error.value), Done];
      QuietRoleStep(s2.sentRole, tail);
      RoleStepAppend(s.sentRole, out1 + out2, s2.sentRole, tail, s2.sentRole);
    } else if IsClosing(p) {
      var (s3, out3) := Flush(s2, 0);
      FlushRole(s2, 0);
      RoleStepAppend(s.sentRole, out1 + out2, s2.sentRole, out3, s3.sentRole);
      var tail := ClosingChunks(s3.sawToolCall, p, includeUsage);
      QuietRoleStep(s3.sentRole, tail);
      RoleStepAppend(s.sentRole, out1 + out2 + out3, s3.sentRole, tail, s3.sentRole);
    }
  }

  lemma {:induction false} RunRole(lines: seq<Line>, s: ChunkState, includeUsage: bool)
    ensures var r := IterChunks(lines, s, includeUsage);
            RoleStep(s.sentRole, r.chunks, r.state.sentRole)
    decreases |lines|
  {
    if lines == [] {
      QuietRoleStep(s.sentRole, []);
    } else {
      var r := StepLine(s, lines[0], includeUsage);
      if lines[0].Event? {
        StepRole(s, lines[0].payload, includeUsage);
      } else {
        QuietRoleStep(s.sentRole, []);
      }
      if !r.stopped {
        RunRole(lines[1..], r.state, includeUsage);
        var rest := IterChunks(lines[1..], r.state, includeUsage);
        RoleStepAppend(s.sentRole, r.chunks, r.state.sentRole, rest.chunks, rest.state.sentRole);
      }
    }
  }

  /** A delta carries the role exactly when no other delta precedes it. */
  lemma {:induction false} RoleIsSentOnceAndFirst(lines: seq<Line>, includeUsage: bool)
    ensures var chunks := IterChunks(lines, INITIAL, includeUsage).chunks;
            forall k :: 0 <= k < |chunks| && chunks[k].Delta? ==>
              (chunks[k].role <==> forall j :: 0 <= j < k ==> !chunks[j].Delta?)
  {
    RunRole(lines, INITIAL, includeUsage);
    var chunks := IterChunks(lines, INITIAL, includeUsage).chunks;
    assert forall k :: 0 <= k < |chunks| && chunks[k].Delta? ==> (chunks[k].role <==> FirstDelta(chunks, k));
  }

  // ---------- The terminating marker ----------

  predicate DoneOnlyLast(chunks: seq<Chunk>, stopped: bool) {
    && (stopped ==> chunks != [] && chunks[|chunks| - 1] == Done)
    && forall k :: 0 <= k < |chunks| && chunks[k] == Done ==> stopped && k == |chunks| - 1
  }

  lemma {:induction false} FlushHasNoDone(s: ChunkState, i: nat)
    ensures Done !in Flush(s, i).1
    decreases |s.calls| - i
  {
    if i < |s.calls| {
      FlushHasNoDone(EmitCall(s, i).0, i + 1);
    }
  }

  lemma {:induction false} StepDone(s: ChunkState, p: Payload, includeUsage: bool)
    ensures var r := StepEvent(s, p, includeUsage);
            DoneOnlyLast(r.chunks, r.stopped)
            && (r.stopped <==> IsClosing(p) || (IsFailure(p) && p.error.Some?))
  {
    var (s1, out1) := TextPart(s, p);
    var (s2, out2) := ToolPart(s1, p);
    PartsHaveNoDone(s, p);
    FlushHasNoDone(s2, 0);
    hide TextPart;
    hide ToolPart;
    hide Flush;
    if IsFailure(p) && p.error.Some? {
      DoneAtEnd(out1 + out2, [ErrorChunk(p.error.value)]);
      assert [ErrorChunk(p.error.value)] + [Done] == [ErrorChunk(p.error.value), Done];
    } else if IsClosing(p) {
      var (s3, out3) := Flush(s2, 0);
      var closing := ClosingChunks(s3.sawToolCall, p, includeUsage);
      hide ClosingChunks;
      DoneAtEnd(out1 + out2 + out3, closing[..|closing| - 1]);
    }
  }

  lemma {:induction false} PartsHaveNoDone(s: ChunkState, p: Payload)
    ensures Done !in TextPart(s, p).1 && Done !in ToolPart(TextPart(s, p).0, p).1
  {
  }

  lemma {:induction false} DoneAtEnd(xs: seq<Chunk>, ys: seq<Chunk>)
    requires Done !in xs && Done !in ys
    ensures DoneOnlyLast(xs + (ys + [Done]), true)
  {
  }

  /** The event makes `iter_chat_chunks` return. */
  predicate Ends(line: Line) {
    line.Event? && (IsClosing(line.payload) || (IsFailure(line.payload) && line.payload.error.Some?))
  }

  /** Nothing follows `[DONE]`, and it is sent exactly when some line ends the stream. */
  lemma {:induction false} DoneIsLast(lines: seq<Line>, s: ChunkState, includeUsage: bool)
    ensures var r := IterChunks(lines, s, includeUsage);
            && DoneOnlyLast(r.chunks, r.stopped)
            && (r.stopped <==> exists k :: 0 <= k < |lines| && Ends(lines[k]))
    decreases |lines|
  {
    if lines != [] {
      if lines[0].Event? {
        StepDone(s, lines[0].payload, includeUsage);
      }
      var r := StepLine(s, lines[0], includeUsage);
      assert r.stopped == Ends(lines[0]);
      if !r.stopped {
        DoneIsLast(lines[1..], r.state, includeUsage);
        if k :| 0 <= k < |lines| && Ends(lines[k]) {
          assert lines[1..][k - 1] == lines[k];
        }
      }
    }
  }

  // ---------- One line at a time ----------

  /** `stream_chat_chunks` forwards chunks up to and including `[DONE]`. */
  function ThroughDone(chunks: seq<Chunk>): seq<Chunk> {
    if chunks == [] then []
    else if chunks[0] == Done then [Done]
    else [chunks[0]] + ThroughDone(chunks[1..])
  }

  datatype StreamResult = StreamResult(state: ChunkState, chunks: seq<Chunk>, terminal: bool)

  /** `stream_chat_chunks`: every line through its own `iter_chat_chunks` call on the shared state. */
  function StreamLines(lines: seq<Line>, s: ChunkState, terminal: bool, includeUsage: bool): StreamResult
    decreases |lines|
  {
    if lines == [] then StreamResult(s, [], terminal)
    else if terminal then StreamLines(lines[1..], s, true, includeUsage)
    else
      var r := IterChunks([lines[0]], s, includeUsage);
      var out := ThroughDone(r.chunks);
      var rest := StreamLines(lines[1..], r.state, Done in out, includeUsage);
      StreamResult(rest.state, out + rest.chunks, rest.terminal)
  }

  lemma {:induction false} ThroughDoneIsAll(chunks: seq<Chunk>, stopped: bool)
    requires DoneOnlyLast(chunks, stopped)
    ensures ThroughDone(chunks) == chunks && (Done in chunks <==> stopped)
    decreases |chunks|
  {
    if chunks != [] {
      if chunks[0] != Done {
        ThroughDoneIsAll(chunks[1..], stopped);
      }
    }
  }

  lemma {:induction false} TerminalIgnoresTheRest(lines: seq<Line>, s: ChunkState, includeUsage: bool)
    ensures StreamLines(lines, s, true, includeUsage) == StreamResult(s, [], true)
    decreases |lines|
  {
    if lines != [] {
      TerminalIgnoresTheRest(lines[1..], s, includeUsage);
    }
  }

  lemma {:induction false} SingleLine(line: Line, s: ChunkState, includeUsage: bool)
    ensures IterChunks([line], s, includeUsage) == StepLine(s, line, includeUsage)
  {
    var r := StepLine(s, line, includeUsage);
    assert [line][1..] == [];
    assert r.chunks + [] == r.chunks;
  }

  /** Feeding the lines one at a time emits exactly what one call on the whole list emits. */
  lemma {:induction false} LineByLineEqualsWhole(lines: seq<Line>, s: ChunkState, includeUsage: bool)
    ensures var r := IterChunks(lines, s, includeUsage);
            StreamLines(lines, s, false, includeUsage) == StreamResult(r.state, r.chunks, r.stopped)
    decreases |lines|
  {
    if lines != [] {
      var r := StepLine(s, lines[0], includeUsage);
      SingleLine(lines[0], s, includeUsage);
      DoneIsLast([lines[0]], s, includeUsage);
      ThroughDoneIsAll(r.chunks, r.stopped);
      if r.stopped {
        TerminalIgnoresTheRest(lines[1..], r.state, includeUsage);
        assert r.chunks + [] == r.chunks;
      } else {
        LineByLineEqualsWhole(lines[1..], r.state, includeUsage);
      }
    }
  }

  // ---------- Failures ----------

  lemma {:induction false} FailureStep(s: ChunkState, failure: Payload, includeUsage: bool)
    requires IsFailure(failure)
    ensures var r := StepEvent(s, failure, includeUsage);
            && r.stopped == failure.error.Some?
            && (r.stopped ==> EndsWithError(r.chunks, failure.error.value))
  {
    var r := StepEvent(s, failure, includeUsage);
    if r.stopped {
      var (s1, out1) := TextPart(s, failure);
      var out2 := ToolPart(s1, failure).1;
      assert r.chunks == out1 + out2 + [ErrorChunk(failure.error.value), Done];
    }
  }

  lemma {:induction false} CollectorFails(opening: seq<Line>, failure: Payload, rest: seq<Line>)
    requires AllOpen(opening) && IsFailure(failure)
    ensures CollectLines(opening + ([Event(failure)] + rest), NOTHING_COLLECTED) == Errored(failure.error)
  {
    OpenRunKeepsInStep(opening, INITIAL, NOTHING_COLLECTED, NOTHING_REPLAYED, false);
    CollectAppend(opening, [Event(failure)] + rest, NOTHING_COLLECTED);
    var a := CollectLines(opening, NOTHING_COLLECTED).acc;
    assert CollectEvent(a, failure) == Errored(failure.error);
  }

  predicate EndsWithError(chunks: seq<Chunk>, e: UpstreamError) {
    |chunks| >= 2 && chunks[|chunks| - 2] == ErrorChunk(e) && chunks[|chunks| - 1] == Done
  }

  lemma {:induction false} StreamAtFailure(opening: seq<Line>, failure: Payload, includeUsage: bool)
    requires AllOpen(opening) && IsFailure(failure)
    ensures var upTo := IterChunks(opening + [Event(failure)], INITIAL, includeUsage);
            && upTo.stopped == failure.error.Some?
            && (upTo.stopped ==> EndsWithError(upTo.chunks, failure.error.value))
  {
    DoneIsLast(opening, INITIAL, includeUsage);
    var r1 := IterChunks(opening, INITIAL, includeUsage);
    IterAppend(opening, [Event(failure)], INITIAL, includeUsage);
    SingleLine(Event(failure), r1.state, includeUsage);
    FailureStep(r1.state, failure, includeUsage);
  }

  /**
   The first failure event: the collector always gives up with its error; the stream ends
   with that error if and only if the event carries one, and otherwise carries on.
   */
  lemma {:induction false} FailureOutcome(opening: seq<Line>, failure: Payload, rest: seq<Line>, includeUsage: bool)
    requires AllOpen(opening) && IsFailure(failure)
    ensures var lines := opening + ([Event(failure)] + rest);
            var upTo := IterChunks(opening + [Event(failure)], INITIAL, includeUsage);
            && CollectLines(lines, NOTHING_COLLECTED) == Errored(failure.error)
            && (failure.error.Some? ==>
                  IterChunks(lines, INITIAL, includeUsage) == upTo && EndsWithError(upTo.chunks, failure.error.value))
            && (failure.error.None? ==> !upTo.stopped && Done !in upTo.chunks)
  {
    hide IterChunks;
    hide CollectLines;
    CollectorFails(opening, failure, rest);
    StreamAtFailure(opening, failure, includeUsage);
    DoneIsLast(opening + [Event(failure)], INITIAL, includeUsage);
    assert opening + ([Event(failure)] + rest) == (opening + [Event(failure)]) + rest;
    IterAppend(opening + [Event(failure)], rest, INITIAL, includeUsage);
  }

  // ---------- A stream and a collector that disagree ----------

  function ArgumentEvent(id: string, text: string, mode: ArgumentsMode): Payload {
    Payload(OtherEvent, None, Some(ToolFields(Some(id), None, Some(text), None, mode)), None, None)
  }

  const CLOSED := Payload(Completed, None, None, None, None)

  /** The call and its history after one appended and one replacing event. */
  lemma {:induction false} RewriteHistory(id: string, first: string, second: string)
    requires id != ""
    ensures var lines := [Event(ArgumentEvent(id, first, Append)), Event(ArgumentEvent(id, second, Replace))]
                         + ([Event(CLOSED)] + []);
            && ArgumentHistory(lines, NO_INDEX, [], 0) == [first, second]
            && CollectLines(lines, NOTHING_COLLECTED).Gathered?
            && |CollectLines(lines, NOTHING_COLLECTED).acc.calls| == 1
            && CollectLines(lines, NOTHING_COLLECTED).acc.calls[0].arguments == second
  {
    var p1, p2 := ArgumentEvent(id, first, Append), ArgumentEvent(id, second, Replace);
    var lines := [Event(p1), Event(p2)] + ([Event(CLOSED)] + []);
    var key := "id:" + id;
    var ix := IndexView(map[key := 0], 1);
    var f1, f2 := p1.tool.value, p2.tool.value;
    var c1 := ApplyDelta(FreshCall(0), f1);
    var c2 := ApplyDelta(c1, f2);
    assert Padded([], 0) == [FreshCall(0)];
    assert Merge([], 0, f1) == [c1] && Merge([c1], 0, f2) == [c2];
    assert "" + first == first;
    assert IndexFor(NO_INDEX, f1.callId, None) == (ix, 0) && IndexFor(ix, f2.callId, None) == (ix, 0);
    assert lines[1..] == [Event(p2), Event(CLOSED)] && lines[1..][1..] == [Event(CLOSED)];
    assert ArgumentHistory([Event(CLOSED)], ix, [c2], 0) == [];
    assert ArgumentHistory(lines[1..], ix, [c1], 0) == [second];
    var a1 := NOTHING_COLLECTED.(ix := ix, calls := [c1]);
    var a2 := a1.(calls := [c2]);
    assert CollectEvent(NOTHING_COLLECTED, p1) == Gathered(a1) && CollectEvent(a1, p2) == Gathered(a2);
    assert CollectLines([Event(CLOSED)], a2) == Gathered(a2);
    assert CollectLines(lines[1..], a1) == Gathered(a2);
  }

  /** Replacing text that was already streamed, by text that does not extend it, always breaks the agreement. */
  lemma {:induction false} RewrittenArgumentsDisagree(id: string, first: string, second: string)
    requires id != "" && !(first <= second)
    ensures var lines := [Event(ArgumentEvent(id, first, Append)), Event(ArgumentEvent(id, second, Replace))]
                         + [Event(CLOSED)] + [];
            var collected := CollectLines(lines, NOTHING_COLLECTED);
            && collected.Gathered?
            && ReplayedMessage(Replay(IterChunks(lines, INITIAL, false).chunks)) != CollectedMessage(collected.acc)
  {
    var opening := [Event(ArgumentEvent(id, first, Append)), Event(ArgumentEvent(id, second, Replace))];
    RewriteHistory(id, first, second);
    assert opening + [Event(CLOSED)] == opening + ([Event(CLOSED)] + []);
    assert opening + [Event(CLOSED)] + [] == opening + [Event(CLOSED)];
    NotExtendedDisagrees(opening, first, second);
  }

  lemma {:induction false} NotExtendedDisagrees(opening: seq<Line>, first: string, second: string)
    requires AllOpen(opening) && !(first <= second)
    requires ArgumentHistory(opening + [Event(CLOSED)], NO_INDEX, [], 0) == [first, second]
    requires var collected := CollectLines(opening + [Event(CLOSED)], NOTHING_COLLECTED);
             collected.Gathered? && |collected.acc.calls| == 1 && collected.acc.calls[0].arguments == second
    ensures var lines := opening + [Event(CLOSED)] + [];
            var collected := CollectLines(lines, NOTHING_COLLECTED);
            && collected.Gathered?
            && ReplayedMessage(Replay(IterChunks(lines, INITIAL, false).chunks)) != CollectedMessage(collected.acc)
  {
    hide IterChunks;
    hide CollectLines;
    hide ArgumentHistory;
    hide ReplayedMessage;
    hide CollectedMessage;
    assert opening + [Event(CLOSED)] + [] == opening + [Event(CLOSED)];
    AgreesWhenNothingTrails(opening, CLOSED, [], false);
    assert [first, second][1..] == [second];
    assert ShownFrom("", [first, second]) == ShownFrom(first, [second]) == first;
  }
}
