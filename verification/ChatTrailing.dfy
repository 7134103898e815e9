/**
 Events after the closing one. In app/core/openai/chat_responses.py the stream returns at the
 closing event, while the collector reads on to the end; this is exactly when the two still agree.
 */
module ChatTrailing {
  import opened Options
  import opened Sequences
  import opened ChatSpec
  import opened ChatAgreement

  /** The text that events of one kind contribute. */
  function Texts(lines: seq<Line>, kind: EventKind): string {
    if lines == [] then ""
    else (if lines[0].Event? && lines[0].payload.kind == kind then Text(lines[0].payload.delta) else "")
         + Texts(lines[1..], kind)
  }

  predicate Keyed(c: CallView) {
    c.callId.Some? || c.name.Some?
  }

  /** Only the first call can lack both an id and a name. */
  predicate KeyedLater(calls: seq<CallView>) {
    forall i :: 1 <= i < |calls| ==> Keyed(calls[i])
  }

  /** Calls are only added, and no call loses its id or its name. */
  predicate Grew(x: seq<CallView>, y: seq<CallView>) {
    && |x| <= |y|
    && forall i :: 0 <= i < |x| ==> (x[i].callId.Some? ==> y[i].callId.Some?) && (x[i].name.Some? ==> y[i].name.Some?)
  }

  predicate CollectorOk(a: Collected) {
    IndexOk(a.ix, |a.calls|) && KeyedLater(a.calls)
  }

  // ---------- What the collector gathers ----------

  lemma {:induction false} CollectToolGrows(a: Collected, p: Payload)
    requires CollectorOk(a)
    ensures CollectorOk(CollectTool(a, p)) && Grew(a.calls, CollectTool(a, p).calls)
  {
    if p.tool.Some? {
      var f := p.tool.value;
      var (ix, index) := IndexFor(a.ix, f.callId, f.name);
      var merged := Merge(a.calls, index, f);
      hide IndexFor;
      hide IndexOk;
      assert forall i :: 0 <= i < |a.calls| && i != index ==> merged[i] == a.calls[i];
    }
  }

  /** What one event that is not a failure adds. */
  lemma {:induction false} CollectEventGrows(a: Collected, p: Payload)
    requires CollectorOk(a) && !IsFailure(p)
    ensures var r := CollectEvent(a, p);
            && r.Gathered? && CollectorOk(r.acc) && Grew(a.calls, r.acc.calls)
            && r.acc.content == a.content + (if p.kind == TextDelta then Text(p.delta) else "")
            && r.acc.refusal == a.refusal + (if p.kind == RefusalDelta then Text(p.delta) else "")
            && (!IsClosing(p) ==> r.acc.usage == a.usage && r.acc.incompleteReason == a.incompleteReason)
  {
    assert a.content + "" == a.content && a.refusal + "" == a.refusal;
    var a1 := CollectText(a, p);
    CollectToolGrows(a1, p);
    hide CollectorOk;
    hide Grew;
    KeepsCollectorOk(CollectTool(a1, p), p);
  }

  lemma {:induction false} KeepsCollectorOk(a: Collected, p: Payload)
    ensures CollectorOk(a) ==> CollectorOk(CollectClosing(a, p))
    ensures CollectClosing(a, p).calls == a.calls
  {
  }

  lemma {:induction false} GrewTransitive(x: seq<CallView>, y: seq<CallView>, z: seq<CallView>)
    requires Grew(x, y) && Grew(y, z)
    ensures Grew(x, z)
  {
  }

  /** What a run of open events adds. */
  ghost predicate AddedBy(lines: seq<Line>, a: Collected, b: Collected) {
    && CollectorOk(b) && Grew(a.calls, b.calls)
    && b.content == a.content + Texts(lines, TextDelta) && b.refusal == a.refusal + Texts(lines, RefusalDelta)
    && b.usage == a.usage && b.incompleteReason == a.incompleteReason
  }

  lemma {:induction false} AddedStep(lines: seq<Line>, a: Collected, b: Collected, c: Collected)
    requires lines != [] && lines[0].Event? && !IsFailure(lines[0].payload) && !IsClosing(lines[0].payload)
    requires CollectorOk(a) && CollectEvent(a, lines[0].payload) == Gathered(b) && AddedBy(lines[1..], b, c)
    ensures AddedBy(lines, a, c)
  {
    CollectEventGrows(a, lines[0].payload);
    GrewTransitive(a.calls, b.calls, c.calls);
    hide CollectEvent;
    hide CollectorOk;
    hide Grew;
    var p := lines[0].payload;
    var (x, y) := (if p.kind == TextDelta then Text(p.delta) else "", if p.kind == RefusalDelta then Text(p.delta) else "");
    Associate(a.content, x, Texts(lines[1..], TextDelta));
    Associate(a.refusal, y, Texts(lines[1..], RefusalDelta));
  }

  lemma {:induction false} AddedNothing(a: Collected)
    requires CollectorOk(a)
    ensures AddedBy([], a, a)
  {
  }

  lemma {:induction false} AddedBySkipped(lines: seq<Line>, a: Collected, b: Collected)
    requires lines != [] && lines[0].Skipped? && AddedBy(lines[1..], a, b)
    ensures AddedBy(lines, a, b)
  {
    assert "" + Texts(lines[1..], TextDelta) == Texts(lines[1..], TextDelta);
    assert "" + Texts(lines[1..], RefusalDelta) == Texts(lines[1..], RefusalDelta);
  }

  lemma {:induction false} OpenLinesAdd(lines: seq<Line>, a: Collected)
    requires AllOpen(lines) && CollectorOk(a)
    ensures CollectLines(lines, a).Gathered? && AddedBy(lines, a, CollectLines(lines, a).acc)
    decreases |lines|
  {
    hide CollectEvent;
    hide AddedBy;
    if lines == [] {
      AddedNothing(a);
    } else if lines[0].Skipped? {
      OpenLinesAdd(lines[1..], a);
      AddedBySkipped(lines, a, CollectLines(lines[1..], a).acc);
    } else {
      var p := lines[0].payload;
      CollectEventGrows(a, p);
      OpenLinesAdd(lines[1..], CollectEvent(a, p).acc);
      AddedStep(lines, a, CollectEvent(a, p).acc, CollectLines(lines, a).acc);
    }
  }

  // ---------- Which lists of calls agree ----------

  /** The id, name and type of the call are still those of the closing event. */
  predicate SameIdentity(c: CallView, d: CallView) {
    d.callId == c.callId && d.name == c.name && EffectiveType(d.toolType) == EffectiveType(c.toolType)
  }

  lemma {:induction false} FinalCallAgrees(call: CallView, core: CallView, last: CallView, seen: ReplayCall)
    requires Settled(call) && core == Core(call) && seen == SeenCall(call)
    ensures ToMessageCall(last) == Some(ReplayedCall(seen)) <==>
            Identified(last) && SameIdentity(core, last) && call.emittedArguments == last.arguments
  {
    if ToMessageCall(last) == Some(ReplayedCall(seen)) {
      assert BuildFunction(last.name, NonEmpty(last.arguments)) == BuildFunction(seen.name, NonEmpty(seen.arguments));
      assert NonEmpty(call.emittedArguments) == NonEmpty(last.arguments);
    }
  }

  /** The client's call `i` is the collector's call `i`. */
  predicate Matches(seen: seq<ReplayCall>, last: seq<CallView>, i: nat) {
    i < |seen| && i < |last| && ToMessageCall(last[i]) == Some(ReplayedCall(seen[i]))
  }

  ghost predicate ListsMatch(seen: seq<ReplayCall>, last: seq<CallView>) {
    && (forall i: nat :: i < |seen| ==> Matches(seen, last, i))
    && forall i :: |seen| <= i < |last| ==> !Identified(last[i])
  }

  function ClientCalls(seen: seq<ReplayCall>): seq<MessageCall> {
    seq(|seen|, i requires 0 <= i < |seen| => ReplayedCall(seen[i]))
  }

  lemma {:induction false} CompactTail(calls: seq<CallView>, n: nat)
    requires n <= |calls| && forall i :: n <= i < |calls| ==> !Identified(calls[i])
    ensures CompactCalls(calls) == CompactCalls(calls[..n])
    decreases |calls|
  {
    if n < |calls| {
      var m := |calls| - 1;
      ReportedExactly(calls[m]);
      hide ToMessageCall;
      hide Identified;
      CompactTail(calls[..m], n);
      assert calls[..m][..n] == calls[..n];
    } else {
      assert calls[..n] == calls;
    }
  }

  lemma {:induction false} MatchingListsAgree(seen: seq<ReplayCall>, last: seq<CallView>)
    requires ListsMatch(seen, last)
    ensures ClientCalls(seen) == CompactCalls(last)
  {
    var n := |seen|;
    assert n > 0 ==> Matches(seen, last, n - 1);
    CompactTail(last, n);
    CompactLength(last[..n]);
    forall i | 0 <= i < n ensures Identified(last[..n][i]) {
      assert Matches(seen, last, i);
      ReportedExactly(last[i]);
    }
    hide ToMessageCall;
    hide Identified;
    hide ReplayedCall;
    hide CompactCalls;
    forall i | 0 <= i < n ensures ClientCalls(seen)[i] == CompactCalls(last[..n])[i] {
      assert Matches(seen, last, i);
      assert ToMessageCall(last[..n][i]) == Some(CompactCalls(last[..n])[i]);
    }
  }

  /** A first call that the collector drops leaves the list of the others. */
  lemma {:induction false} DropFirst(last: seq<CallView>)
    requires last != [] && !Identified(last[0])
    ensures CompactCalls(last) == CompactCalls(last[1..])
    decreases |last|
  {
    var n := |last| - 1;
    ReportedExactly(last[n]);
    hide ToMessageCall;
    hide Identified;
    if n > 0 {
      DropFirst(last[..n]);
      assert last[..n][1..] == last[1..][..n - 1];
      assert last[1..][n - 1] == last[n];
    } else {
      assert last[..0] == [] && last[1..] == [];
    }
  }

  /** All calls are reported: the lists agree position by position. */
  lemma {:induction false} AllReportedMatch(seen: seq<ReplayCall>, last: seq<CallView>)
    requires (forall i :: 0 <= i < |last| ==> Identified(last[i])) && ClientCalls(seen) == CompactCalls(last)
    ensures |seen| == |last| && ListsMatch(seen, last)
  {
    CompactLength(last);
    hide Identified;
    hide ToMessageCall;
    hide ReplayedCall;
    hide CompactCalls;
    assert |ClientCalls(seen)| == |last|;
    forall i: nat | i < |seen| ensures Matches(seen, last, i) {
      assert ClientCalls(seen)[i] == CompactCalls(last)[i];
      assert ToMessageCall(last[i]) == Some(CompactCalls(last)[i]);
    }
  }

  /** A list shifted by a dropped first call differs: the client has seen that call without id and name. */
  lemma {:induction false} ShiftedDiffers(seen: seq<ReplayCall>, others: seq<CallView>)
    requires seen != [] && seen[0].id == None && seen[0].name == None
    requires forall i :: 0 <= i < |others| ==> Keyed(others[i])
    ensures ClientCalls(seen) != CompactCalls(others)
  {
    assert !Matches(seen, others, 0);
    if ClientCalls(seen) == CompactCalls(others) {
      AllReportedMatch(seen, others);
    }
  }

  lemma {:induction false} AgreeingListsMatch(seen: seq<ReplayCall>, last: seq<CallView>)
    requires KeyedLater(last) && |seen| <= |last|
    requires seen != [] && !Keyed(last[0]) ==> seen[0].id == None && seen[0].name == None
    requires ClientCalls(seen) == CompactCalls(last)
    ensures ListsMatch(seen, last)
  {
    assert forall i :: 1 <= i < |last| ==> Keyed(last[i]) && Identified(last[i]);
    if last == [] || Identified(last[0]) {
      AllReportedMatch(seen, last);
    } else {
      DropFirst(last);
      assert forall i :: 0 <= i < |last[1..]| ==> Keyed(last[1..][i]) && Identified(last[1..][i]);
      CompactLength(last[1..]);
      if seen != [] {
        ShiftedDiffers(seen, last[1..]);
        assert false;
      }
      assert |ClientCalls(seen)| == |last| - 1;
    }
  }

  // ---------- The theorem ----------

  /** Every call is reported, as at the closing event, with arguments that were fully streamed. */
  ghost predicate CallsKept(calls: seq<CallView>, atClose: seq<CallView>, last: seq<CallView>) {
    && |calls| == |atClose| <= |last|
    && (forall i :: 0 <= i < |atClose| ==>
          Identified(last[i]) && SameIdentity(atClose[i], last[i]) && calls[i].emittedArguments == last[i].arguments)
    && forall i :: |atClose| <= i < |last| ==> !Identified(last[i])
  }

  lemma {:induction false} KeptExactlyWhenMatching(calls: seq<CallView>, atClose: seq<CallView>, last: seq<CallView>,
                                                   seen: seq<ReplayCall>)
    requires SameCore(calls, atClose) && CallsSeen(calls, seen) && |atClose| <= |last|
    requires forall i :: 0 <= i < |calls| ==> Settled(calls[i])
    ensures ListsMatch(seen, last) <==> CallsKept(calls, atClose, last)
  {
    forall i: nat | i < |seen|
      ensures Matches(seen, last, i) <==>
              Identified(last[i]) && SameIdentity(atClose[i], last[i]) && calls[i].emittedArguments == last[i].arguments
    {
      FinalCallAgrees(calls[i], atClose[i], last[i], seen[i]);
    }
    hide Matches;
    hide Identified;
    hide SameIdentity;
  }

  lemma {:induction false} FinalCallsAgree(calls: seq<CallView>, atClose: seq<CallView>, last: seq<CallView>,
                                           seen: seq<ReplayCall>)
    requires SameCore(calls, atClose) && CallsSeen(calls, seen) && Grew(atClose, last) && KeyedLater(last)
    requires forall i :: 0 <= i < |calls| ==> Settled(calls[i])
    ensures ClientCalls(seen) == CompactCalls(last) <==> CallsKept(calls, atClose, last)
  {
    KeptExactlyWhenMatching(calls, atClose, last, seen);
    hide CallsKept;
    hide CompactCalls;
    if ListsMatch(seen, last) {
      MatchingListsAgree(seen, last);
    }
    if ClientCalls(seen) == CompactCalls(last) {
      assert seen != [] ==> seen[0] == SeenCall(calls[0]) && atClose[0] == Core(calls[0]);
      AgreeingListsMatch(seen, last);
    }
  }

  lemma {:induction false} FinalMessagesAgree(s: ChunkState, atClose: Collected, last: Collected, client: Replayed,
                                              trailing: seq<Line>)
    requires AtClose(s, atClose, client) && AddedBy(trailing, atClose, last)
    ensures ReplayedMessage(client) == CollectedMessage(last) <==>
            Texts(trailing, TextDelta) == "" && Texts(trailing, RefusalDelta) == ""
            && CallsKept(s.calls, atClose.calls, last.calls)
  {
    FinalCallsAgree(s.calls, atClose.calls, last.calls, client.calls);
    hide CallsKept;
    hide Texts;
    var calls, compact := ClientCalls(client.calls), CompactCalls(last.calls);
    var finish := if compact != [] then "tool_calls"
                  else if last.incompleteReason.Some? && last.incompleteReason.value != "" then last.incompleteReason.value
                  else "stop";
    AppendsNothing(client.content, Texts(trailing, TextDelta));
    AppendsNothing(client.refusal, Texts(trailing, RefusalDelta));
  }

  lemma {:induction false} AppendsNothing(x: string, y: string)
    ensures x + y == x <==> y == ""
  {
    if x + y == x {
      assert |y| == 0;
    }
  }

  /** Every call is reported as it was, fully streamed, and nothing else is reported. */
  ghost predicate CallsUnchanged(lines: seq<Line>, atClose: seq<CallView>, last: seq<CallView>) {
    && |atClose| <= |last|
    && (forall i :: 0 <= i < |atClose| ==>
          && Identified(last[i]) && SameIdentity(atClose[i], last[i])
          && ShownFrom("", ArgumentHistory(lines, NO_INDEX, [], i)) == last[i].arguments)
    && forall i :: |atClose| <= i < |last| ==> !Identified(last[i])
  }

  lemma {:induction false} ShownIsEmitted(opening: seq<Line>, closing: Payload, includeUsage: bool, last: seq<CallView>)
    requires AllOpen(opening) && IsClosing(closing)
    ensures var head := opening + [Event(closing)];
            var r := IterChunks(head, INITIAL, includeUsage);
            var collected := CollectLines(head, NOTHING_COLLECTED);
            && collected.Gathered? && |r.state.calls| == |collected.acc.calls|
            && (CallsKept(r.state.calls, collected.acc.calls, last) <==> CallsUnchanged(head, collected.acc.calls, last))
  {
    hide SameIdentity;
    hide Identified;
    hide ShownFrom;
    hide ArgumentHistory;
    CloseTogether(opening, closing, includeUsage);
    var head := opening + [Event(closing)];
    var r := IterChunks(head, INITIAL, includeUsage);
    forall i: nat | i < |r.state.calls|
      ensures ShownFrom("", ArgumentHistory(head, NO_INDEX, [], i)) == r.state.calls[i].emittedArguments
    {
      ShownAtClose(opening, closing, includeUsage, i);
    }
    hide IterChunks;
    hide CollectLines;
  }

  lemma {:induction false} ShownAtClose(opening: seq<Line>, closing: Payload, includeUsage: bool, i: nat)
    requires AllOpen(opening) && IsClosing(closing)
    ensures var head := opening + [Event(closing)];
            EmittedAt(IterChunks(head, INITIAL, includeUsage).state.calls, i) ==
            ShownFrom("", ArgumentHistory(head, NO_INDEX, [], i))
  {
    hide ShownFrom;
    hide ArgumentHistory;
    EmittedAtClosing(opening, closing, includeUsage, i);
    CloseTogether(opening, closing, includeUsage);
    OpenRunKeepsInStep(opening, INITIAL, NOTHING_COLLECTED, NOTHING_REPLAYED, includeUsage);
    IterAppend(opening, [Event(closing)], INITIAL, includeUsage);
  }

  // ---------- The same condition, read off the lines ----------

  /** The updates that the lines file under call `i`, in order. */
  function Filed(lines: seq<Line>, ix: IndexView, i: nat): seq<ToolFields> {
    if lines == [] then []
    else if lines[0].Skipped? || lines[0].payload.tool.None? then Filed(lines[1..], ix, i)
    else
      var f := lines[0].payload.tool.value;
      var (ix1, index) := IndexFor(ix, f.callId, f.name);
      (if index == i then [f] else []) + Filed(lines[1..], ix1, i)
  }

  function Updated(c: CallView, updates: seq<ToolFields>): CallView
    decreases |updates|
  {
    if updates == [] then c else Updated(ApplyDelta(c, updates[0]), updates[1..])
  }

  /** Call `i` as these lines leave it. */
  function CallOf(lines: seq<Line>, i: nat): CallView {
    Updated(FreshCall(i), Filed(lines, NO_INDEX, i))
  }

  function CallOr(calls: seq<CallView>, i: nat): CallView {
    if i < |calls| then calls[i] else FreshCall(i)
  }

  predicate NoFailure(lines: seq<Line>) {
    forall k :: 0 <= k < |lines| && lines[k].Event? ==> !IsFailure(lines[k].payload)
  }

  /** What filing the updates under call `i` makes of the calls `x`. */
  predicate FiledInto(x: seq<CallView>, updates: seq<ToolFields>, y: seq<CallView>, i: nat) {
    && CallOr(y, i) == Updated(CallOr(x, i), updates)
    && (i < |y| <==> i < |x| || updates != [])
  }

  lemma {:induction false} FiledStep(a: Collected, p: Payload, i: nat)
    requires CollectorOk(a) && p.tool.Some?
    ensures var f := p.tool.value;
            FiledInto(a.calls, if IndexFor(a.ix, f.callId, f.name).1 == i then [f] else [], CollectTool(a, p).calls, i)
  {
    var f := p.tool.value;
    var (ix, index) := IndexFor(a.ix, f.callId, f.name);
    assert index <= |a.calls|;
    hide IndexFor;
    hide IndexOk;
    assert [f][1..] == [];
    assert Updated(CallOr(a.calls, i), [f]) == ApplyDelta(CallOr(a.calls, i), f);
  }

  lemma {:induction false} FiledThen(x: seq<CallView>, us: seq<ToolFields>, y: seq<CallView>, vs: seq<ToolFields>,
                                     z: seq<CallView>, i: nat)
    requires |us| <= 1 && FiledInto(x, us, y, i) && FiledInto(y, vs, z, i)
    ensures FiledInto(x, us + vs, z, i)
  {
    hide ApplyDelta;
    if us == [] {
      assert us + vs == vs;
    } else {
      assert (us + vs)[0] == us[0] && (us + vs)[1..] == vs && us[1..] == [];
      assert Updated(CallOr(x, i), us) == ApplyDelta(CallOr(x, i), us[0]);
    }
  }

  /** The collector's calls are what the lines file under them. */
  lemma {:induction false} CallsFromLines(lines: seq<Line>, a: Collected, i: nat)
    requires NoFailure(lines) && CollectorOk(a)
    ensures CollectLines(lines, a).Gathered?
    ensures FiledInto(a.calls, Filed(lines, a.ix, i), CollectLines(lines, a).acc.calls, i)
    decreases |lines|
  {
    if lines != [] {
      if lines[0].Skipped? {
        CallsFromLines(lines[1..], a, i);
      } else {
        var p := lines[0].payload;
        CollectEventGrows(a, p);
        CollectedEvent(a, p);
        var b := CollectEvent(a, p).acc;
        CallsFromLines(lines[1..], b, i);
        hide FiledInto;
        hide CollectEvent;
        hide CollectorOk;
        if p.tool.Some? {
          FiledEvent(a, p, i);
          var f := p.tool.value;
          var us := if IndexFor(a.ix, f.callId, f.name).1 == i then [f] else [];
          FiledThen(a.calls, us, b.calls, Filed(lines[1..], b.ix, i), CollectLines(lines[1..], b).acc.calls, i);
        }
      }
    }
  }

  lemma {:induction false} FiledEvent(a: Collected, p: Payload, i: nat)
    requires CollectorOk(a) && p.tool.Some? && !IsFailure(p)
    ensures var f := p.tool.value;
            var b := CollectEvent(a, p).acc;
            && b.ix == IndexFor(a.ix, f.callId, f.name).0
            && FiledInto(a.calls, if IndexFor(a.ix, f.callId, f.name).1 == i then [f] else [], b.calls, i)
  {
    CollectedEvent(a, p);
    FiledStep(CollectText(a, p), p, i);
    hide FiledInto;
    hide IndexFor;
    hide Merge;
  }

  /**
   Call `i` with the lines up to the closing event, `head`, and with all of them: a call the head
   files something under ends identified, with its id, name and type, and with arguments equal to
   what an append-only stream had shown; any other call stays without id, name and arguments.
   */
  ghost predicate CallKept(head: seq<Line>, lines: seq<Line>, i: nat) {
    var c, d := CallOf(head, i), CallOf(lines, i);
    if Filed(head, NO_INDEX, i) == [] then !Identified(d)
    else Identified(d) && SameIdentity(c, d) && ShownFrom("", ArgumentHistory(head, NO_INDEX, [], i)) == d.arguments
  }

  ghost predicate NothingAdded(head: seq<Line>, lines: seq<Line>) {
    forall i: nat :: CallKept(head, lines, i)
  }

  lemma {:induction false} CallOfLines(lines: seq<Line>, i: nat)
    requires NoFailure(lines)
    ensures var r := CollectLines(lines, NOTHING_COLLECTED);
            && r.Gathered? && CallOr(r.acc.calls, i) == CallOf(lines, i)
            && (i < |r.acc.calls| <==> Filed(lines, NO_INDEX, i) != [])
  {
    CollectorStartsOk();
    CallsFromLines(lines, NOTHING_COLLECTED, i);
  }

  /** The condition on the lines is the one on what the collector has at the close and at the end. */
  lemma {:induction false} KeptOnLines(head: seq<Line>, lines: seq<Line>)
    requires NoFailure(head) && NoFailure(lines)
    requires var x, y := CollectLines(head, NOTHING_COLLECTED), CollectLines(lines, NOTHING_COLLECTED);
             x.Gathered? && y.Gathered? && |x.acc.calls| <= |y.acc.calls|
    ensures var x, y := CollectLines(head, NOTHING_COLLECTED).acc.calls, CollectLines(lines, NOTHING_COLLECTED).acc.calls;
            CallsUnchanged(head, x, y) <==> NothingAdded(head, lines)
  {
    var x, y := CollectLines(head, NOTHING_COLLECTED).acc.calls, CollectLines(lines, NOTHING_COLLECTED).acc.calls;
    hide CollectLines;
    hide ShownFrom;
    hide ArgumentHistory;
    hide SameIdentity;
    forall i: nat
      ensures CallOr(x, i) == CallOf(head, i) && CallOr(y, i) == CallOf(lines, i)
      ensures i < |x| <==> Filed(head, NO_INDEX, i) != []
    {
      CallOfLines(head, i);
      CallOfLines(lines, i);
    }
    hide CallOf;
    hide Filed;
    assert forall i: nat :: !Identified(FreshCall(i));
    hide Identified;
    if CallsUnchanged(head, x, y) {
      forall i: nat ensures CallKept(head, lines, i) {
      }
    }
    if NothingAdded(head, lines) {
      forall i: nat | i < |y|
        ensures if i < |x| then Identified(y[i]) && SameIdentity(x[i], y[i])
                                && ShownFrom("", ArgumentHistory(head, NO_INDEX, [], i)) == y[i].arguments
                else !Identified(y[i])
      {
        assert CallKept(head, lines, i);
      }
    }
  }

  lemma {:induction false} CollectorStartsOk()
    ensures CollectorOk(NOTHING_COLLECTED)
  {
  }

  lemma {:induction false} CollectorOkAtClose(opening: seq<Line>, closing: Payload)
    requires AllOpen(opening) && IsClosing(closing)
    ensures var collected := CollectLines(opening + [Event(closing)], NOTHING_COLLECTED);
            collected.Gathered? && CollectorOk(collected.acc)
  {
    CollectorStartsOk();
    OpenLinesAdd(opening, NOTHING_COLLECTED);
    var a1 := CollectLines(opening, NOTHING_COLLECTED).acc;
    CollectEventGrows(a1, closing);
    CollectAppend(opening, [Event(closing)], NOTHING_COLLECTED);
    assert CollectLines([Event(closing)], a1) == CollectEvent(a1, closing);
  }

  /** The two results agree exactly when the collector's calls at the end are those at the close, fully streamed. */
  lemma {:induction false} AgreesOnCalls(opening: seq<Line>, closing: Payload, trailing: seq<Line>, includeUsage: bool)
    requires AllOpen(opening) && IsClosing(closing) && AllOpen(trailing)
    ensures var head := opening + [Event(closing)];
            var r := IterChunks(head + trailing, INITIAL, includeUsage);
            var atClose, last := CollectLines(head, NOTHING_COLLECTED), CollectLines(head + trailing, NOTHING_COLLECTED);
            && r.stopped && atClose.Gathered? && last.Gathered? && |atClose.acc.calls| <= |last.acc.calls|
            && Replay(r.chunks).usage == (if includeUsage then MapUsage(last.acc.usage) else None)
            && (ReplayedMessage(Replay(r.chunks)) == CollectedMessage(last.acc) <==>
                && Texts(trailing, TextDelta) == "" && Texts(trailing, RefusalDelta) == ""
                && CallsUnchanged(head, atClose.acc.calls, last.acc.calls))
  {
    var head := opening + [Event(closing)];
    CloseTogether(opening, closing, includeUsage);
    CollectorOkAtClose(opening, closing);
    IterAppend(head, trailing, INITIAL, includeUsage);
    CollectAppend(head, trailing, NOTHING_COLLECTED);
    var r := IterChunks(head, INITIAL, includeUsage);
    var atClose := CollectLines(head, NOTHING_COLLECTED).acc;
    OpenLinesAdd(trailing, atClose);
    var last := CollectLines(trailing, atClose).acc;
    FinalMessagesAgree(r.state, atClose, last, Replay(r.chunks), trailing);
    ShownIsEmitted(opening, closing, includeUsage, last.calls);
    assert |atClose.calls| <= |last.calls|;
    hide *;
  }

  /**
   The central promise. When the only terminal or failure event of a stream is its closing one,
   whatever else follows it, a client that reassembles the streamed chunks obtains the very message
   the collector returns if and only if what follows the closing event contributes no text and no
   refusal, reports no further call, and leaves every call identified, with its id, name and type
   and with arguments equal to what an append-only stream had shown of it. The condition is read off
   the lines.
   */
  lemma {:induction false} StreamAgreesWithCollector(opening: seq<Line>, closing: Payload, trailing: seq<Line>,
                                                     includeUsage: bool)
    requires AllOpen(opening) && IsClosing(closing) && AllOpen(trailing)
    ensures var head := opening + [Event(closing)];
            var r := IterChunks(head + trailing, INITIAL, includeUsage);
            var last := CollectLines(head + trailing, NOTHING_COLLECTED);
            && r.stopped && last.Gathered?
            && Replay(r.chunks).usage == (if includeUsage then MapUsage(last.acc.usage) else None)
            && (ReplayedMessage(Replay(r.chunks)) == CollectedMessage(last.acc) <==>
                && Texts(trailing, TextDelta) == "" && Texts(trailing, RefusalDelta) == ""
                && NothingAdded(head, head + trailing))
  {
    AgreesOnCalls(opening, closing, trailing, includeUsage);
    KeptOnLines(opening + [Event(closing)], opening + [Event(closing)] + trailing);
    hide *;
  }

  /** Text after the closing event always reaches the collector alone. */
  lemma {:induction false} TrailingTextDisagrees(opening: seq<Line>, closing: Payload, trailing: seq<Line>,
                                                 includeUsage: bool)
    requires AllOpen(opening) && IsClosing(closing) && AllOpen(trailing) && Texts(trailing, TextDelta) != ""
    ensures var lines := opening + [Event(closing)] + trailing;
            var last := CollectLines(lines, NOTHING_COLLECTED);
            && last.Gathered?
            && ReplayedMessage(Replay(IterChunks(lines, INITIAL, includeUsage).chunks)) != CollectedMessage(last.acc)
  {
    StreamAgreesWithCollector(opening, closing, trailing, includeUsage);
    hide *;
  }

  predicate AllSkipped(lines: seq<Line>) {
    forall k :: 0 <= k < |lines| ==> lines[k] == Skipped
  }

  lemma {:induction false} SkippedLinesCollectNothing(lines: seq<Line>, a: Collected)
    requires AllSkipped(lines)
    ensures CollectLines(lines, a) == Gathered(a)
    decreases |lines|
  {
    if lines != [] {
      SkippedLinesCollectNothing(lines[1..], a);
    }
  }

  /** Nothing but skipped lines follows the closing event. */
  lemma {:induction false} AgreesWhenNothingTrails(opening: seq<Line>, closing: Payload, trailing: seq<Line>,
                                                   includeUsage: bool)
    requires AllOpen(opening) && IsClosing(closing) && AllSkipped(trailing)
    ensures var head := opening + [Event(closing)];
            var r := IterChunks(head + trailing, INITIAL, includeUsage);
            var last := CollectLines(head + trailing, NOTHING_COLLECTED);
            && last.Gathered?
            && (ReplayedMessage(Replay(r.chunks)) == CollectedMessage(last.acc) <==>
                forall i :: 0 <= i < |last.acc.calls| ==>
                  && Identified(last.acc.calls[i])
                  && ShownFrom("", ArgumentHistory(head, NO_INDEX, [], i)) == last.acc.calls[i].arguments)
  {
    AgreesOnCalls(opening, closing, trailing, includeUsage);
    var head := opening + [Event(closing)];
    CollectAppend(head, trailing, NOTHING_COLLECTED);
    var atClose := CollectLines(head, NOTHING_COLLECTED).acc;
    SkippedLinesCollectNothing(trailing, atClose);
    SkippedLinesHaveNoText(trailing, TextDelta);
    SkippedLinesHaveNoText(trailing, RefusalDelta);
    hide IterChunks;
    hide CollectLines;
    hide ArgumentHistory;
    hide ShownFrom;
    hide Identified;
  }

  lemma {:induction false} SkippedLinesHaveNoText(lines: seq<Line>, kind: EventKind)
    requires AllSkipped(lines)
    ensures Texts(lines, kind) == ""
    decreases |lines|
  {
    if lines != [] {
      SkippedLinesHaveNoText(lines[1..], kind);
    }
  }
}
