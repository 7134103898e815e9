/**
 What the streaming and the collecting consumer of app/core/openai/chat_responses.py
 promise for every sequence of events, and exactly when the two agree.
 */
module ChatAgreement {
  import opened Options
  import opened Sequences
  import opened ChatSpec

  // ---------- The invariant of the streaming state ----------

  /** Everything this call can send has been sent. */
  predicate Settled(c: CallView) {
    && c.emittedCallId == c.callId
    && c.emittedName == c.name
    && c.emittedToolType == Some(EffectiveType(c.toolType))
    && PendingArguments(c.emittedArguments, c.arguments) == None
  }

  predicate IndexOk(ix: IndexView, n: nat) {
    && ix.nextIndex <= n
    && forall k :: k in ix.indexes ==> ix.indexes[k] < ix.nextIndex
  }

  predicate StreamInv(s: ChunkState) {
    && IndexOk(s.ix, |s.calls|)
    && (forall i :: 0 <= i < |s.calls| ==> s.calls[i].index == i && Settled(s.calls[i]))
    && s.sawToolCall == (s.calls != [])
    && (s.sawToolCall ==> s.sentRole)
  }

  /** The call as a client has seen it. */
  function SeenCall(c: CallView): ReplayCall {
    ReplayCall(c.emittedCallId, c.emittedName, c.emittedArguments,
               if c.emittedToolType.Some? then c.emittedToolType.value else "function")
  }

  predicate CallsSeen(calls: seq<CallView>, seen: seq<ReplayCall>) {
    && |seen| == |calls|
    && forall i :: 0 <= i < |calls| ==> seen[i] == SeenCall(calls[i])
  }

  /** A call as the collector keeps it: nothing is ever marked as emitted. */
  function Core(c: CallView): CallView {
    c.(emittedCallId := None, emittedName := None, emittedArguments := "", emittedToolType := None)
  }

  predicate SameCore(s: seq<CallView>, a: seq<CallView>) {
    && |a| == |s|
    && forall i :: 0 <= i < |s| ==> a[i] == Core(s[i])
  }

  /** What one chunk adds to the client's picture is what `build_stream_delta` marks as sent. */
  lemma {:induction false} ReplayFollowsEmission(c: CallView, d: StreamDelta)
    requires c.emittedToolType.Some? || (c.emittedCallId == None && c.emittedName == None && c.emittedArguments == "")
    requires PendingDelta(c) == Some(d)
    ensures ReplayToolChunk(SeenCall(c), ToChunkCall(d)) == SeenCall(MarkEmitted(c))
  {
    var pending := PendingArguments(c.emittedArguments, c.arguments);
    assert c.emittedArguments + Text(pending) == MarkEmitted(c).emittedArguments;
  }

  lemma {:induction false} ReplayOne(r: Replayed, c: Chunk)
    ensures ReplayFrom(r, [c]) == ReplayChunk(r, c)
  {
  }

  lemma {:induction false} ReplayAppend(r: Replayed, xs: seq<Chunk>, ys: seq<Chunk>)
    ensures ReplayFrom(r, xs + ys) == ReplayFrom(ReplayFrom(r, xs), ys)
    decreases |xs|
  {
    if xs == [] {
      assert xs + ys == ys;
    } else {
      assert (xs + ys)[1..] == xs[1..] + ys;
      ReplayAppend(ReplayChunk(r, xs[0]), xs[1..], ys);
    }
  }

  // ---------- One event ----------

  lemma {:induction false} TextPartKeeps(s: ChunkState, p: Payload, rep: Replayed)
    requires StreamInv(s) && CallsSeen(s.calls, rep.calls)
    ensures var (s1, out) := TextPart(s, p);
            && StreamInv(s1)
            && s1.ix == s.ix && s1.calls == s.calls
            && ReplayFrom(rep, out) ==
               rep.(content := rep.content + if p.kind == TextDelta then Text(p.delta) else "",
                    refusal := rep.refusal + if p.kind == RefusalDelta then Text(p.delta) else "")
  {
    var (s1, out) := TextPart(s, p);
    assert rep.content + "" == rep.content && rep.refusal + "" == rep.refusal;
    if out != [] {
      ReplayOne(rep, out[0]);
      assert out == [out[0]];
    }
  }

  /** Filing an event changes one call only, and nothing that was already sent. */
  lemma {:induction false} MergeFacts(s: ChunkState, f: ToolFields)
    requires StreamInv(s)
    ensures var (ix, index) := IndexFor(s.ix, f.callId, f.name);
            var merged := Merge(s.calls, index, f);
            && index <= |s.calls| && |merged| == (if index < |s.calls| then |s.calls| else index + 1)
            && IndexOk(ix, |merged|)
            && (forall k :: 0 <= k < |s.calls| && k != index ==> merged[k] == s.calls[k])
            && merged[index] == ApplyDelta(if index < |s.calls| then s.calls[index] else FreshCall(index), f)
  {
  }

  lemma {:induction false} ToolPartKeepsInv(s: ChunkState, p: Payload)
    requires StreamInv(s)
    ensures StreamInv(ToolPart(s, p).0)
  {
    if p.tool.Some? {
      var f := p.tool.value;
      MergeFacts(s, f);
      var (ix, index) := IndexFor(s.ix, f.callId, f.name);
      var merged := s.(ix := ix, calls := Merge(s.calls, index, f));
      var c := merged.calls[index];
      var s1 := ToolPart(s, p).0;
      assert s1.calls[index] == MarkEmitted(c);
      assert forall k :: 0 <= k < |s1.calls| && k != index ==> s1.calls[k] == s.calls[k];
    }
  }

  /** The client's copy of call `index` after its chunk. */
  lemma {:induction false} EmittedChunkIsSeen(s: ChunkState, f: ToolFields, rep: Replayed, d: StreamDelta)
    requires StreamInv(s) && CallsSeen(s.calls, rep.calls)
    requires var index := IndexFor(s.ix, f.callId, f.name).1;
             PendingDelta(Merge(s.calls, index, f)[index]) == Some(d)
    ensures var index := IndexFor(s.ix, f.callId, f.name).1;
            var merged := Merge(s.calls, index, f);
            var chunk := Delta(!s.sentRole, None, None, Some(ToChunkCall(d)));
            && CallsSeen(merged[index := MarkEmitted(merged[index])], ReplayChunk(rep, chunk).calls)
            && ReplayChunk(rep, chunk) == rep.(calls := ReplayChunk(rep, chunk).calls)
  {
    MergeFacts(s, f);
    var index := IndexFor(s.ix, f.callId, f.name).1;
    var c := Merge(s.calls, index, f)[index];
    assert c.index == index;
    ReplayFollowsEmission(c, d);
    var seen := PaddedReplay(rep.calls, index);
    assert seen[index] == SeenCall(c);
    assert rep.content + "" == rep.content && rep.refusal + "" == rep.refusal;
  }

  lemma {:induction false} ToolPartKeeps(s: ChunkState, p: Payload, rep: Replayed)
    requires StreamInv(s) && CallsSeen(s.calls, rep.calls)
    ensures var (s1, out) := ToolPart(s, p);
            && StreamInv(s1)
            && CallsSeen(s1.calls, ReplayFrom(rep, out).calls)
            && ReplayFrom(rep, out) == rep.(calls := ReplayFrom(rep, out).calls)
  {
    ToolPartKeepsInv(s, p);
    if p.tool.Some? {
      var f := p.tool.value;
      MergeFacts(s, f);
      var index := IndexFor(s.ix, f.callId, f.name).1;
      var c := Merge(s.calls, index, f)[index];
      match PendingDelta(c) {
        case None =>
          assert SeenCall(c) == SeenCall(s.calls[index]);
        case Some(d) =>
          EmittedChunkIsSeen(s, f, rep, d);
          ReplayOne(rep, Delta(!s.sentRole, None, None, Some(ToChunkCall(d))));
      }
    }
  }

  /** The loop over all calls at a closing event never has anything left to send. */
  lemma {:induction false} ClosingFlushIsSilent(s: ChunkState, i: nat)
    requires StreamInv(s)
    ensures Flush(s, i) == (s, [])
    decreases |s.calls| - i
  {
    if i < |s.calls| {
      assert NothingPending(s.calls[i]);
      assert EmitCall(s, i) == (s, []);
      var none: seq<Chunk> := [];
      assert none + none == none;
      ClosingFlushIsSilent(s, i + 1);
    }
  }

  lemma {:induction false} ClosingReplay(rep: Replayed, sawToolCall: bool, p: Payload, includeUsage: bool)
    ensures var out := ClosingChunks(sawToolCall, p, includeUsage);
            ReplayFrom(rep, out) ==
            rep.(finish := Some(out[0].reason), usage := if includeUsage then ResponseUsage(p.response) else rep.usage)
  {
    var out := ClosingChunks(sawToolCall, p, includeUsage);
    var r1 := ReplayChunk(rep, out[0]);
    if includeUsage {
      assert out == [out[0]] + [UsageChunk(ResponseUsage(p.response))] + [Done];
      assert out[1..] == [UsageChunk(ResponseUsage(p.response)), Done] && out[1..][1..] == [Done];
      ReplayOne(ReplayChunk(r1, out[1]), Done);
    } else {
      assert out[1..] == [Done];
      ReplayOne(r1, Done);
    }
  }

  lemma {:induction false} FailureReplay(rep: Replayed, error: UpstreamError)
    ensures ReplayFrom(rep, [ErrorChunk(error), Done]).calls == rep.calls
  {
    var tail := [ErrorChunk(error), Done];
    assert tail[1..] == [Done];
    ReplayOne(ReplayChunk(rep, tail[0]), Done);
  }

  lemma {:induction false} StepKeeps(s: ChunkState, p: Payload, includeUsage: bool, rep: Replayed)
    requires StreamInv(s) && CallsSeen(s.calls, rep.calls)
    ensures var r := StepEvent(s, p, includeUsage);
            StreamInv(r.state) && CallsSeen(r.state.calls, ReplayFrom(rep, r.chunks).calls)
  {
    var (s1, out1) := TextPart(s, p);
    TextPartKeeps(s, p, rep);
    var rep1 := ReplayFrom(rep, out1);
    var (s2, out2) := ToolPart(s1, p);
    ToolPartKeeps(s1, p, rep1);
    ReplayAppend(rep, out1, out2);
    var rep2 := ReplayFrom(rep1, out2);
    assert CallsSeen(s2.calls, rep2.calls);
    hide TextPart;
    hide ToolPart;
    hide StreamInv;
    hide CallsSeen;
    hide ReplayFrom;
    hide Flush;
    hide ClosingChunks;
    if IsFailure(p) && p.error.Some? {
      ReplayAppend(rep, out1 + out2, [ErrorChunk(p.error.value), Done]);
      FailureReplay(rep2, p.error.value);
    } else if IsClosing(p) {
      ClosingFlushIsSilent(s2, 0);
      assert out1 + out2 + [] == out1 + out2;
      ReplayAppend(rep, out1 + out2, ClosingChunks(s2.sawToolCall, p, includeUsage));
      ClosingReplay(rep2, s2.sawToolCall, p, includeUsage);
    }
  }

  // ---------- Whole runs: streamed pieces ----------

  lemma {:induction false} RunKeeps(lines: seq<Line>, s: ChunkState, includeUsage: bool, rep: Replayed)
    requires StreamInv(s) && CallsSeen(s.calls, rep.calls)
    ensures var r := IterChunks(lines, s, includeUsage);
            StreamInv(r.state) && CallsSeen(r.state.calls, ReplayFrom(rep, r.chunks).calls)
    decreases |lines|
  {
    if lines != [] {
      var r := StepLine(s, lines[0], includeUsage);
      if lines[0].Event? {
        StepKeeps(s, lines[0].payload, includeUsage, rep);
      }
      if !r.stopped {
        var rest := IterChunks(lines[1..], r.state, includeUsage);
        RunKeeps(lines[1..], r.state, includeUsage, ReplayFrom(rep, r.chunks));
        ReplayAppend(rep, r.chunks, rest.chunks);
      }
    }
  }

  /** The argument text of a chunk for call `i`. */
  function Piece(c: Chunk, i: nat): string {
    if c.Delta? && c.toolCall.Some? && c.toolCall.value.index == i && c.toolCall.value.function_.Some?
    then Text(c.toolCall.value.function_.value.arguments)
    else ""
  }

  function Pieces(chunks: seq<Chunk>, i: nat): string {
    if chunks == [] then "" else Piece(chunks[0], i) + Pieces(chunks[1..], i)
  }

  function ArgumentsAt(calls: seq<ReplayCall>, i: nat): string {
    if i < |calls| then calls[i].arguments else ""
  }

  lemma {:induction false} PiecesReplay(r: Replayed, chunks: seq<Chunk>, i: nat)
    ensures ArgumentsAt(ReplayFrom(r, chunks).calls, i) == ArgumentsAt(r.calls, i) + Pieces(chunks, i)
    decreases |chunks|
  {
    hide ReplayChunk;
    hide Piece;
    hide ArgumentsAt;
    if chunks == [] {
      assert ArgumentsAt(r.calls, i) + "" == ArgumentsAt(r.calls, i);
    } else {
      PieceReplay(r, chunks[0], i);
      PiecesReplay(ReplayChunk(r, chunks[0]), chunks[1..], i);
      PiecesStep(r, chunks, i);
      hide Pieces;
      hide ReplayFrom;
      Associate(ArgumentsAt(r.calls, i), Piece(chunks[0], i), Pieces(chunks[1..], i));
    }
  }

  lemma {:induction false} PiecesStep(r: Replayed, chunks: seq<Chunk>, i: nat)
    requires chunks != []
    ensures Pieces(chunks, i) == Piece(chunks[0], i) + Pieces(chunks[1..], i)
    ensures ReplayFrom(r, chunks) == ReplayFrom(ReplayChunk(r, chunks[0]), chunks[1..])
  {
  }

  lemma {:induction false} PieceReplay(r: Replayed, c: Chunk, i: nat)
    ensures ArgumentsAt(ReplayChunk(r, c).calls, i) == ArgumentsAt(r.calls, i) + Piece(c, i)
  {
  }

  /**
   For every event sequence, the argument pieces streamed for a tool index concatenate
   exactly to that call's emitted arguments, and an index without a call gets no piece.
   */
  lemma {:induction false} StreamedPiecesAreEmittedArguments(lines: seq<Line>, includeUsage: bool, i: nat)
    ensures var r := IterChunks(lines, INITIAL, includeUsage);
            Pieces(r.chunks, i) == if i < |r.state.calls| then r.state.calls[i].emittedArguments else ""
  {
    hide IterChunks;
    hide Pieces;
    hide ReplayFrom;
    var r := IterChunks(lines, INITIAL, includeUsage);
    RunKeeps(lines, INITIAL, includeUsage, NOTHING_REPLAYED);
    hide StreamInv;
    PiecesReplay(NOTHING_REPLAYED, r.chunks, i);
    assert "" + Pieces(r.chunks, i) == Pieces(r.chunks, i);
  }

  // ---------- Which argument text is emitted ----------

  /** The values call `i`'s arguments take, one per event filed under it. */
  function ArgumentHistory(lines: seq<Line>, ix: IndexView, calls: seq<CallView>, i: nat): seq<string>
    decreases |lines|
  {
    if lines == [] then []
    else if lines[0] == Skipped || lines[0].payload.tool == None then
      ArgumentHistory(lines[1..], ix, calls, i)
    else
      var f := lines[0].payload.tool.value;
      var (ix1, index) := IndexFor(ix, f.callId, f.name);
      var calls1 := Merge(calls, index, f);
      (if index == i then [calls1[i].arguments] else []) + ArgumentHistory(lines[1..], ix1, calls1, i)
  }

  /** What an append-only receiver can be shown: each value that extends what it already has. */
  function ShownFrom(shown: string, history: seq<string>): string
    decreases |history|
  {
    if history == [] then shown
    else ShownFrom(if shown <= history[0] then history[0] else shown, history[1..])
  }

  lemma {:induction false} ShownStep(shown: string, history: seq<string>)
    ensures history != [] ==>
              ShownFrom(shown, history) == ShownFrom(if shown <= history[0] then history[0] else shown, history[1..])
  {
  }

  function EmittedAt(calls: seq<CallView>, i: nat): string {
    if i < |calls| then calls[i].emittedArguments else ""
  }

  lemma {:induction false} EmittedAfterTool(s: ChunkState, p: Payload, i: nat)
    requires StreamInv(s) && p.tool.Some?
    ensures var f := p.tool.value;
            var (ix, index) := IndexFor(s.ix, f.callId, f.name);
            var merged := Merge(s.calls, index, f);
            var shown := EmittedAt(s.calls, i);
            EmittedAt(ToolPart(s, p).0.calls, i) ==
            if index == i && shown <= merged[i].arguments then merged[i].arguments else shown
  {
    var f := p.tool.value;
    var (ix, index) := IndexFor(s.ix, f.callId, f.name);
    hide IndexFor;
    hide IndexOk;
    var c := Merge(s.calls, index, f)[index];
    if index == i {
      var shown := EmittedAt(s.calls, i);
      assert c.emittedArguments == shown;
      if shown <= c.arguments && |shown| == |c.arguments| {
        assert shown == c.arguments;
      }
    }
  }

  lemma {:induction false} HistoryDependsOnCore(lines: seq<Line>, ix: IndexView, calls: seq<CallView>,
                                                other: seq<CallView>, i: nat)
    requires SameCore(calls, other)
    ensures ArgumentHistory(lines, ix, calls, i) == ArgumentHistory(lines, ix, other, i)
    decreases |lines|
  {
    if lines == [] {
    } else if lines[0] == Skipped || lines[0].payload.tool == None {
      HistoryDependsOnCore(lines[1..], ix, calls, other, i);
    } else {
      var f := lines[0].payload.tool.value;
      var (ix1, index) := IndexFor(ix, f.callId, f.name);
      HistoryDependsOnCore(lines[1..], ix1, Merge(calls, index, f), Merge(other, index, f), i);
    }
  }

  /** No event ends the stream or reports a failure. */
  predicate AllOpen(lines: seq<Line>) {
    forall k :: 0 <= k < |lines| && lines[k].Event? ==>
      !IsClosing(lines[k].payload) && !IsFailure(lines[k].payload)
  }

  lemma {:induction false} MergeKeepsCore(calls: seq<CallView>, other: seq<CallView>, index: nat, f: ToolFields)
    requires SameCore(calls, other)
    ensures SameCore(Merge(calls, index, f), Merge(other, index, f))
  {
  }

  lemma {:induction false} ToolPartKeepsCore(s: ChunkState, p: Payload, a: Collected)
    requires StreamInv(s) && s.ix == a.ix && SameCore(s.calls, a.calls)
    ensures var s1 := ToolPart(s, p).0;
            var a1 := CollectTool(a, p);
            s1.ix == a1.ix && SameCore(s1.calls, a1.calls)
            && a1 == a.(ix := a1.ix, calls := a1.calls)
  {
    if p.tool.Some? {
      var f := p.tool.value;
      var (ix, index) := IndexFor(s.ix, f.callId, f.name);
      var merged := Merge(s.calls, index, f);
      MergeKeepsCore(s.calls, a.calls, index, f);
    }
  }

  lemma {:induction false} HistoryStep(lines: seq<Line>, s: ChunkState, p: Payload, i: nat)
    requires StreamInv(s) && lines != [] && lines[0] == Event(p) && p.tool.Some?
    ensures var s1 := ToolPart(s, p).0;
            var f := p.tool.value;
            var index := IndexFor(s.ix, f.callId, f.name).1;
            ArgumentHistory(lines, s.ix, s.calls, i) ==
            (if index == i then [Merge(s.calls, index, f)[i].arguments] else [])
            + ArgumentHistory(lines[1..], s1.ix, s1.calls, i)
  {
    var f := p.tool.value;
    var (ix1, index) := IndexFor(s.ix, f.callId, f.name);
    var merged := Merge(s.calls, index, f);
    var s1 := ToolPart(s, p).0;
    var core := seq(|merged|, k requires 0 <= k < |merged| => Core(merged[k]));
    HistoryDependsOnCore(lines[1..], ix1, merged, core, i);
    HistoryDependsOnCore(lines[1..], ix1, s1.calls, core, i);
  }

  /** One event: emitted text and remaining history move together. */
  lemma {:induction false} EmittedStep(lines: seq<Line>, s: ChunkState, p: Payload, i: nat)
    requires StreamInv(s) && lines != [] && lines[0] == Event(p)
    ensures var s1 := ToolPart(s, p).0;
            ShownFrom(EmittedAt(s.calls, i), ArgumentHistory(lines, s.ix, s.calls, i)) ==
            ShownFrom(EmittedAt(s1.calls, i), ArgumentHistory(lines[1..], s1.ix, s1.calls, i))
  {
    if p.tool.Some? {
      var f := p.tool.value;
      var index := IndexFor(s.ix, f.callId, f.name).1;
      var s1 := ToolPart(s, p).0;
      var rest := ArgumentHistory(lines[1..], s1.ix, s1.calls, i);
      var history := ArgumentHistory(lines, s.ix, s.calls, i);
      EmittedAfterTool(s, p, i);
      HistoryStep(lines, s, p, i);
      if index == i {
        MergeFacts(s, f);
        assert history[1..] == rest;
        assert history[0] == Merge(s.calls, index, f)[i].arguments;
        ShownStep(EmittedAt(s.calls, i), history);
      } else {
        assert history == rest;
      }
    }
  }

  /** A run of open events: emitted text and remaining history move together. */
  lemma {:induction false} EmittedRun(lines: seq<Line>, rest: seq<Line>, s: ChunkState, includeUsage: bool, i: nat)
    requires StreamInv(s) && AllOpen(lines)
    ensures var r := IterChunks(lines, s, includeUsage);
            && StreamInv(r.state)
            && ShownFrom(EmittedAt(s.calls, i), ArgumentHistory(lines + rest, s.ix, s.calls, i)) ==
               ShownFrom(EmittedAt(r.state.calls, i), ArgumentHistory(rest, r.state.ix, r.state.calls, i))
    decreases |lines|
  {
    if lines == [] {
      assert lines + rest == rest;
    } else {
      assert (lines + rest)[1..] == lines[1..] + rest;
      if lines[0].Event? {
        var p := lines[0].payload;
        var s1 := TextPart(s, p).0;
        assert StreamInv(s1) && s1.ix == s.ix && s1.calls == s.calls;
        EmittedStep(lines + rest, s1, p, i);
        ToolPartKeepsInv(s1, p);
        assert StepEvent(s, p, includeUsage).state == ToolPart(s1, p).0;
        EmittedRun(lines[1..], rest, ToolPart(s1, p).0, includeUsage, i);
      } else {
        EmittedRun(lines[1..], rest, s, includeUsage, i);
      }
    }
  }

  /** The emitted arguments of call `i` at the closing event are what its whole history can show. */
  lemma {:induction false} EmittedAtClosing(opening: seq<Line>, closing: Payload, includeUsage: bool, i: nat)
    requires AllOpen(opening) && IsClosing(closing)
    ensures var s := IterChunks(opening, INITIAL, includeUsage).state;
            EmittedAt(StepEvent(s, closing, includeUsage).state.calls, i) ==
            ShownFrom("", ArgumentHistory(opening + [Event(closing)], NO_INDEX, [], i))
  {
    hide PendingDelta;
    hide MarkEmitted;
    hide Merge;
    var tail := [Event(closing)];
    EmittedRun(opening, tail, INITIAL, includeUsage, i);
    var s := IterChunks(opening, INITIAL, includeUsage).state;
    var s1 := TextPart(s, closing).0;
    EmittedStep(tail, s1, closing, i);
    assert tail[1..] == [];
    ToolPartKeepsInv(s1, closing);
    ClosingFlushIsSilent(ToolPart(s1, closing).0, 0);
  }

  // ---------- The two consumers side by side ----------

  predicate InStep(s: ChunkState, a: Collected, rep: Replayed) {
    && StreamInv(s)
    && s.ix == a.ix && SameCore(s.calls, a.calls)
    && CallsSeen(s.calls, rep.calls)
    && rep.content == a.content && rep.refusal == a.refusal
  }

  /** What the collector gathers from the text of one event. */
  function CollectText(a: Collected, p: Payload): Collected {
    match p.kind
    case TextDelta => a.(content := a.content + Text(p.delta))
    case RefusalDelta => a.(refusal := a.refusal + Text(p.delta))
    case _ => a
  }

  lemma {:induction false} TextKeepsInStep(s: ChunkState, a: Collected, rep: Replayed, p: Payload)
    requires InStep(s, a, rep)
    ensures var (s1, out) := TextPart(s, p);
            var rep1 := ReplayFrom(rep, out);
            InStep(s1, CollectText(a, p), rep1) && rep1.finish == rep.finish && rep1.usage == rep.usage
  {
    TextPartKeeps(s, p, rep);
    hide TextPart;
    hide ReplayFrom;
    assert a.content + "" == a.content && a.refusal + "" == a.refusal;
  }

  lemma {:induction false} ToolKeepsInStep(s: ChunkState, a: Collected, rep: Replayed, p: Payload)
    requires InStep(s, a, rep)
    ensures var (s1, out) := ToolPart(s, p);
            var rep1 := ReplayFrom(rep, out);
            InStep(s1, CollectTool(a, p), rep1) && rep1.finish == rep.finish && rep1.usage == rep.usage
  {
    ToolPartKeeps(s, p, rep);
    ToolPartKeepsCore(s, p, a);
    hide ToolPart;
    hide ReplayFrom;
    hide StreamInv;
    hide IndexFor;
    hide Merge;
  }

  lemma {:induction false} CollectedEvent(a: Collected, p: Payload)
    requires !IsFailure(p)
    ensures var r, b := CollectEvent(a, p), CollectTool(CollectText(a, p), p);
            && r.Gathered? && r.acc.ix == b.ix && r.acc.calls == b.calls
            && r.acc.content == b.content && r.acc.refusal == b.refusal
            && (IsClosing(p) || (r.acc.incompleteReason == a.incompleteReason && r.acc.usage == a.usage))
  {
    hide IndexFor;
    hide Merge;
  }

  lemma {:induction false} OpenStepKeepsInStep(s: ChunkState, a: Collected, rep: Replayed, p: Payload)
    requires InStep(s, a, rep) && !IsFailure(p)
    ensures var (s1, out1) := TextPart(s, p);
            var (s2, out2) := ToolPart(s1, p);
            var rep2 := ReplayFrom(rep, out1 + out2);
            && CollectEvent(a, p).Gathered?
            && InStep(s2, CollectEvent(a, p).acc, rep2)
            && rep2.finish == rep.finish && rep2.usage == rep.usage
            && (IsClosing(p) || (CollectEvent(a, p).acc.incompleteReason == a.incompleteReason
                                 && CollectEvent(a, p).acc.usage == a.usage))
  {
    hide TextPart;
    hide ToolPart;
    hide ReplayFrom;
    hide StreamInv;
    hide CollectText;
    hide CollectTool;
    hide CollectEvent;
    var (s1, out1) := TextPart(s, p);
    TextKeepsInStep(s, a, rep, p);
    var rep1 := ReplayFrom(rep, out1);
    ToolKeepsInStep(s1, CollectText(a, p), rep1, p);
    ReplayAppend(rep, out1, ToolPart(s1, p).1);
    CollectedEvent(a, p);
  }

  lemma {:induction false} OpenRunKeepsInStep(
    lines: seq<Line>, s: ChunkState, a: Collected, rep: Replayed, includeUsage: bool)
    requires InStep(s, a, rep) && AllOpen(lines)
    ensures var r := IterChunks(lines, s, includeUsage);
            && !r.stopped
            && CollectLines(lines, a).Gathered?
            && InStep(r.state, CollectLines(lines, a).acc, ReplayFrom(rep, r.chunks))
            && CollectLines(lines, a).acc.incompleteReason == a.incompleteReason
            && CollectLines(lines, a).acc.usage == a.usage
            && ReplayFrom(rep, r.chunks).usage == rep.usage
    decreases |lines|
  {
    if lines != [] {
      if lines[0] == Skipped {
        OpenRunKeepsInStep(lines[1..], s, a, rep, includeUsage);
        assert StepLine(s, lines[0], includeUsage).chunks == [];
        assert [] + IterChunks(lines[1..], s, includeUsage).chunks == IterChunks(lines[1..], s, includeUsage).chunks;
      } else {
        var p := lines[0].payload;
        var r := StepEvent(s, p, includeUsage);
        OpenStepKeepsInStep(s, a, rep, p);
        OpenRunKeepsInStep(lines[1..], r.state, CollectEvent(a, p).acc, ReplayFrom(rep, r.chunks), includeUsage);
        ReplayAppend(rep, r.chunks, IterChunks(lines[1..], r.state, includeUsage).chunks);
      }
    }
  }

  lemma {:induction false} IterAppend(xs: seq<Line>, ys: seq<Line>, s: ChunkState, includeUsage: bool)
    ensures var r := IterChunks(xs, s, includeUsage);
            IterChunks(xs + ys, s, includeUsage) ==
            if r.stopped then r
            else var rest := IterChunks(ys, r.state, includeUsage);
                 StepResult(rest.state, r.chunks + rest.chunks, rest.stopped)
    decreases |xs|
  {
    if xs == [] {
      assert xs + ys == ys;
      var rest := IterChunks(ys, s, includeUsage);
      assert [] + rest.chunks == rest.chunks;
    } else {
      var r := StepLine(s, xs[0], includeUsage);
      assert (xs + ys)[1..] == xs[1..] + ys;
      if !r.stopped {
        IterAppend(xs[1..], ys, r.state, includeUsage);
        var mid := IterChunks(xs[1..], r.state, includeUsage);
        if !mid.stopped {
          var rest := IterChunks(ys, mid.state, includeUsage);
          assert r.chunks + (mid.chunks + rest.chunks) == (r.chunks + mid.chunks) + rest.chunks;
        }
      }
    }
  }

  lemma {:induction false} CollectAppend(xs: seq<Line>, ys: seq<Line>, a: Collected)
    ensures CollectLines(xs + ys, a) ==
            match CollectLines(xs, a)
            case Errored(e) => Errored(e)
            case Gathered(a1) => CollectLines(ys, a1)
    decreases |xs|
  {
    if xs == [] {
      assert xs + ys == ys;
    } else {
      assert (xs + ys)[1..] == xs[1..] + ys;
      match xs[0]
      case Skipped => CollectAppend(xs[1..], ys, a);
      case Event(p) =>
        match CollectEvent(a, p)
        case Errored(_) =>
        case Gathered(a1) => CollectAppend(xs[1..], ys, a1);
    }
  }

  /** The call carries an id, a name or arguments, so the collector reports it. */
  predicate Identified(c: CallView) {
    c.callId.Some? || c.name.Some? || c.arguments != ""
  }

  lemma {:induction false} CompactLength(calls: seq<CallView>)
    ensures |CompactCalls(calls)| <= |calls|
    ensures |CompactCalls(calls)| == |calls| <==> forall i :: 0 <= i < |calls| ==> Identified(calls[i])
    ensures |CompactCalls(calls)| == |calls| ==>
              forall i :: 0 <= i < |calls| ==> ToMessageCall(calls[i]) == Some(CompactCalls(calls)[i])
    decreases |calls|
  {
    if calls != [] {
      var n := |calls| - 1;
      CompactLength(calls[..n]);
      ReportedExactly(calls[n]);
      hide ToMessageCall;
      hide Identified;
      assert forall i :: 0 <= i < n ==> calls[..n][i] == calls[i];
    }
  }

  lemma {:induction false} ReportedExactly(c: CallView)
    ensures ToMessageCall(c).Some? <==> Identified(c)
  {
  }

  /** What the client has after the closing event. */
  lemma {:induction false} ClosingClient(s: ChunkState, p: Payload, rep: Replayed, includeUsage: bool)
    requires StreamInv(ToolPart(TextPart(s, p).0, p).0) && IsClosing(p)
    ensures var (s1, out1) := TextPart(s, p);
            var (s2, out2) := ToolPart(s1, p);
            var rep2 := ReplayFrom(rep, out1 + out2);
            var r := StepEvent(s, p, includeUsage);
            && r.stopped && r.state == s2
            && ReplayFrom(rep, r.chunks) ==
               rep2.(finish := Some(if s2.calls != [] then "tool_calls"
                                    else if p.kind == Incomplete then FinishFromIncomplete(p.response) else "stop"),
                     usage := if includeUsage then ResponseUsage(p.response) else rep2.usage)
  {
    hide TextPart;
    hide ToolPart;
    var (s1, out1) := TextPart(s, p);
    var (s2, out2) := ToolPart(s1, p);
    ClosingFlushIsSilent(s2, 0);
    assert out1 + out2 + [] == out1 + out2;
    ReplayAppend(rep, out1 + out2, ClosingChunks(s2.sawToolCall, p, includeUsage));
    ClosingReplay(ReplayFrom(rep, out1 + out2), s2.sawToolCall, p, includeUsage);
  }

  lemma {:induction false} CollectedAtClosing(a: Collected, p: Payload)
    requires IsClosing(p) && a.incompleteReason == None && a.usage == None
    ensures var acc := CollectEvent(a, p).acc;
            && MapUsage(acc.usage) == ResponseUsage(p.response)
            && acc.incompleteReason == (if p.kind == Incomplete && p.response.Some?
                                        then Some(FinishFromIncomplete(p.response)) else None)
  {
  }

  // ---------- Both consumers at the closing event ----------

  /** The state of the stream, of the collector and of the client right after the closing event. */
  predicate AtClose(s: ChunkState, a: Collected, client: Replayed) {
    && InStep(s, a, client) && a.incompleteReason != Some("")
    && client.finish == Some(if s.calls != [] then "tool_calls"
                             else if a.incompleteReason.Some? then a.incompleteReason.value else "stop")
  }

  lemma {:induction false} CloseStep(s: ChunkState, a: Collected, rep: Replayed, p: Payload, includeUsage: bool)
    requires InStep(s, a, rep) && IsClosing(p) && a.incompleteReason == None && a.usage == None && rep.usage == None
    ensures var r, collected := StepEvent(s, p, includeUsage), CollectEvent(a, p);
            var client := ReplayFrom(rep, r.chunks);
            && r.stopped && collected.Gathered? && AtClose(r.state, collected.acc, client)
            && client.usage == (if includeUsage then MapUsage(collected.acc.usage) else None)
  {
    OpenStepKeepsInStep(s, a, rep, p);
    ClosingClient(s, p, rep, includeUsage);
    CollectedAtClosing(a, p);
    hide TextPart;
    hide ToolPart;
    hide StepEvent;
    hide CollectEvent;
    hide ReplayFrom;
    hide StreamInv;
  }

  lemma {:induction false} CloseTogether(opening: seq<Line>, closing: Payload, includeUsage: bool)
    requires AllOpen(opening) && IsClosing(closing)
    ensures var r := IterChunks(opening + [Event(closing)], INITIAL, includeUsage);
            var collected := CollectLines(opening + [Event(closing)], NOTHING_COLLECTED);
            && r.stopped && collected.Gathered?
            && AtClose(r.state, collected.acc, Replay(r.chunks))
            && Replay(r.chunks).usage == (if includeUsage then MapUsage(collected.acc.usage) else None)
  {
    var r1 := IterChunks(opening, INITIAL, includeUsage);
    OpenRunKeepsInStep(opening, INITIAL, NOTHING_COLLECTED, NOTHING_REPLAYED, includeUsage);
    var a1 := CollectLines(opening, NOTHING_COLLECTED).acc;
    hide StepEvent;
    hide CollectEvent;
    hide InStep;
    CloseStep(r1.state, a1, Replay(r1.chunks), closing, includeUsage);
    hide AtClose;
    var r2 := StepEvent(r1.state, closing, includeUsage);
    ReplayAppend(NOTHING_REPLAYED, r1.chunks, r2.chunks);
    IterAppend(opening, [Event(closing)], INITIAL, includeUsage);
    CollectAppend(opening, [Event(closing)], NOTHING_COLLECTED);
    assert IterChunks([Event(closing)], r1.state, includeUsage) == r2;
    assert CollectLines([Event(closing)], a1) == CollectEvent(a1, closing);
  }
}
