/**
 What a collected message holds, stated on the lines alone: which events belong to one call, what
 their updates leave of it, and what the message shows of the calls, the texts and the closing event.
 */
module ChatMessage {
  import opened Options
  import opened Sequences
  import opened ChatSpec
  import opened ChatAgreement
  import opened ChatTrailing

  // ---------- Which events belong to one call ----------

  predicate HasTool(line: Line) {
    line.Event? && line.payload.tool.Some?
  }

  function ToolOf(line: Line): ToolFields
    requires HasTool(line)
  {
    line.payload.tool.value
  }

  predicate HasKey(f: ToolFields) {
    Truthy(f.callId) || Truthy(f.name)
  }

  /** The same non-empty id, or no id and the same non-empty name. */
  predicate SameCall(f: ToolFields, g: ToolFields) {
    || (Truthy(f.callId) && f.callId == g.callId)
    || (!Truthy(f.callId) && !Truthy(g.callId) && Truthy(f.name) && f.name == g.name)
  }

  /** The first event of its call. */
  predicate Opens(lines: seq<Line>, k: nat)
    requires k < |lines|
  {
    && HasTool(lines[k]) && HasKey(ToolOf(lines[k]))
    && forall j :: 0 <= j < k && HasTool(lines[j]) ==> !SameCall(ToolOf(lines[j]), ToolOf(lines[k]))
  }

  /** How many calls the lines open. */
  function OpenedBy(lines: seq<Line>): nat {
    if lines == [] then 0
    else OpenedBy(lines[..|lines| - 1]) + if Opens(lines, |lines| - 1) then 1 else 0
  }

  /** The index table after the lines. */
  function TableAfter(lines: seq<Line>): IndexView {
    if lines == [] then NO_INDEX
    else
      var before, last := TableAfter(lines[..|lines| - 1]), lines[|lines| - 1];
      if HasTool(last) then IndexFor(before, ToolOf(last).callId, ToolOf(last).name).0 else before
  }

  /** The index under which event `k` is filed. */
  function IndexAt(lines: seq<Line>, k: nat): nat
    requires k < |lines| && HasTool(lines[k])
  {
    IndexFor(TableAfter(lines[..k]), ToolOf(lines[k]).callId, ToolOf(lines[k]).name).1
  }

  function KeyOf(f: ToolFields): Option<string> {
    ToolCallKey(f.callId, f.name)
  }

  lemma {:induction false} KeysTellCalls(f: ToolFields, g: ToolFields)
    ensures KeyOf(f).Some? <==> HasKey(f)
    ensures KeyOf(f).Some? && KeyOf(f) == KeyOf(g) <==> SameCall(f, g)
  {
    assert "id:"[0] == 'i' && "name:"[0] == 'n';
    if KeyOf(f).Some? && KeyOf(f) == KeyOf(g) {
      var x, y := KeyOf(f).value, KeyOf(g).value;
      assert x[0] == y[0] && x[3..] == y[3..] && (|x| > 5 ==> x[5..] == y[5..]);
    }
  }

  /** The table numbers the calls in the order in which they open. */
  ghost predicate TableOk(lines: seq<Line>, t: IndexView) {
    && t.nextIndex == OpenedBy(lines)
    && (forall key :: key in t.indexes ==> exists j: nat :: OpensAs(lines, j, key))
    && (forall j: nat, key :: OpensAs(lines, j, key) ==> key in t.indexes && t.indexes[key] == OpenedBy(lines[..j]))
  }

  ghost predicate OpensAs(lines: seq<Line>, j: nat, key: string) {
    j < |lines| && Opens(lines, j) && KeyOf(ToolOf(lines[j])) == Some(key)
  }

  lemma {:induction false} OpensInPrefix(lines: seq<Line>, n: nat, j: nat, key: string)
    requires j < n <= |lines|
    ensures Opens(lines[..n], j) <==> Opens(lines, j)
    ensures OpensAs(lines[..n], j, key) <==> OpensAs(lines, j, key)
    ensures lines[..n][..j] == lines[..j]
  {
    assert forall i :: 0 <= i < n ==> lines[..n][i] == lines[i];
  }

  lemma {:induction false} SameCallChains(f: ToolFields, g: ToolFields, h: ToolFields)
    requires SameCall(f, g) && SameCall(g, h)
    ensures SameCall(f, h) && SameCall(g, f) && HasKey(f)
  {
  }

  /** Every call has a first event. */
  lemma {:induction false} FirstOf(lines: seq<Line>, k: nat) returns (j: nat)
    requires k < |lines| && HasTool(lines[k]) && HasKey(ToolOf(lines[k]))
    ensures j <= k && Opens(lines, j) && SameCall(ToolOf(lines[j]), ToolOf(lines[k]))
    decreases k
  {
    if Opens(lines, k) {
      j := k;
    } else {
      var i: nat :| i < k && HasTool(lines[i]) && SameCall(ToolOf(lines[i]), ToolOf(lines[k]));
      SameCallChains(ToolOf(lines[i]), ToolOf(lines[k]), ToolOf(lines[k]));
      j := FirstOf(lines, i);
      SameCallChains(ToolOf(lines[j]), ToolOf(lines[i]), ToolOf(lines[k]));
    }
  }

  /** A key is in the table exactly when an earlier event is of its call. */
  lemma {:induction false} KnownExactlyWhenOpened(lines: seq<Line>, n: nat, t: IndexView)
    requires n < |lines| && HasTool(lines[n]) && HasKey(ToolOf(lines[n])) && TableOk(lines[..n], t)
    ensures KeyOf(ToolOf(lines[n])).Some?
    ensures KeyOf(ToolOf(lines[n])).value in t.indexes <==> !Opens(lines, n)
  {
    var f := ToolOf(lines[n]);
    KeysTellCalls(f, f);
    var key := KeyOf(f).value;
    if key in t.indexes {
      var j: nat :| OpensAs(lines[..n], j, key);
      KeysTellCalls(ToolOf(lines[j]), f);
    }
    if !Opens(lines, n) {
      var i: nat :| i < n && HasTool(lines[i]) && SameCall(ToolOf(lines[i]), f);
      SameCallChains(ToolOf(lines[i]), f, f);
      var j := FirstOf(lines, i);
      SameCallChains(ToolOf(lines[j]), ToolOf(lines[i]), f);
      KeysTellCalls(ToolOf(lines[j]), f);
      OpensInPrefix(lines, n, j, key);
      assert OpensAs(lines[..n], j, key);
    }
  }

  lemma {:induction false} TableFollows(lines: seq<Line>)
    ensures TableOk(lines, TableAfter(lines))
    decreases |lines|
  {
    if lines != [] {
      var n := |lines| - 1;
      var before := TableAfter(lines[..n]);
      TableFollows(lines[..n]);
      forall j: nat, key | j < n
        ensures OpensAs(lines[..n], j, key) <==> OpensAs(lines, j, key)
        ensures lines[..n][..j] == lines[..j]
      {
        OpensInPrefix(lines, n, j, key);
      }
      TableStep(lines, before);
    }
  }

  lemma {:induction false} TableStep(lines: seq<Line>, before: IndexView)
    requires lines != [] && before == TableAfter(lines[..|lines| - 1]) && TableOk(lines[..|lines| - 1], before)
    requires forall j: nat, key | j < |lines| - 1 ::
               && (OpensAs(lines[..|lines| - 1], j, key) <==> OpensAs(lines, j, key))
               && lines[..|lines| - 1][..j] == lines[..j]
    ensures TableOk(lines, TableAfter(lines))
  {
    var n := |lines| - 1;
    var after := TableAfter(lines);
    if HasTool(lines[n]) && HasKey(ToolOf(lines[n])) {
      KnownExactlyWhenOpened(lines, n, before);
    } else if HasTool(lines[n]) {
      KeysTellCalls(ToolOf(lines[n]), ToolOf(lines[n]));
    }
    hide TableAfter;
    hide Opens;
    forall key | key in after.indexes ensures exists j: nat :: OpensAs(lines, j, key) {
      if key in before.indexes {
        var j: nat :| OpensAs(lines[..n], j, key);
        assert OpensAs(lines, j, key);
      } else {
        assert OpensAs(lines, n, key);
      }
    }
    forall j: nat, key | OpensAs(lines, j, key)
      ensures key in after.indexes && after.indexes[key] == OpenedBy(lines[..j])
    {
      if j < n {
        assert OpensAs(lines[..n], j, key);
      }
    }
  }

  lemma {:induction false} OpenedGrows(lines: seq<Line>, i: nat, j: nat)
    requires i < j <= |lines|
    ensures OpenedBy(lines[..i]) <= OpenedBy(lines[..j])
    ensures Opens(lines, i) ==> OpenedBy(lines[..i]) < OpenedBy(lines[..j])
    decreases j
  {
    var n: nat := j - 1;
    assert lines[..j][..n] == lines[..n];
    if i < n {
      OpenedGrows(lines, i, n);
    } else {
      OpensInPrefix(lines, j, n, "");
    }
  }

  /** An event with a key is filed under the number of calls opened before its own. */
  lemma {:induction false} IndexCountsCalls(lines: seq<Line>, j: nat, k: nat)
    requires j <= k < |lines| && Opens(lines, j) && HasTool(lines[k]) && SameCall(ToolOf(lines[j]), ToolOf(lines[k]))
    ensures IndexAt(lines, k) == OpenedBy(lines[..j])
  {
    var f := ToolOf(lines[k]);
    KeysTellCalls(ToolOf(lines[j]), f);
    var key := KeyOf(f).value;
    TableFollows(lines[..k]);
    if j < k {
      OpensInPrefix(lines, k, j, key);
      assert OpensAs(lines[..k], j, key);
    } else {
      KnownExactlyWhenOpened(lines, k, TableAfter(lines[..k]));
    }
  }

  /** Without a key an event goes to call 0; two with a key share an index exactly when of the same call. */
  lemma {:induction false} SameIndexExactly(lines: seq<Line>, j: nat, k: nat)
    requires j < |lines| && k < |lines| && HasTool(lines[j]) && HasTool(lines[k])
    ensures !HasKey(ToolOf(lines[k])) ==> IndexAt(lines, k) == 0
    ensures HasKey(ToolOf(lines[j])) && HasKey(ToolOf(lines[k])) ==>
              (IndexAt(lines, j) == IndexAt(lines, k) <==> SameCall(ToolOf(lines[j]), ToolOf(lines[k])))
  {
    KeysTellCalls(ToolOf(lines[k]), ToolOf(lines[j]));
    if HasKey(ToolOf(lines[j])) && HasKey(ToolOf(lines[k])) {
      var x := FirstOf(lines, j);
      var y := FirstOf(lines, k);
      IndexCountsCalls(lines, x, j);
      IndexCountsCalls(lines, y, k);
      DifferentOpenings(lines, x, y);
    }
  }

  lemma {:induction false} DifferentOpenings(lines: seq<Line>, x: nat, y: nat)
    requires x < |lines| && y < |lines| && Opens(lines, x) && Opens(lines, y)
    ensures OpenedBy(lines[..x]) == OpenedBy(lines[..y]) <==> x == y
    ensures SameCall(ToolOf(lines[x]), ToolOf(lines[y])) <==> x == y
  {
    if x < y {
      OpenedGrows(lines, x, y);
    } else if y < x {
      OpenedGrows(lines, y, x);
    }
  }

  // ---------- The updates of a call ----------

  /** The updates of the events filed under call `i`, in order. */
  function UpdatesOf(lines: seq<Line>, i: nat): seq<ToolFields> {
    if lines == [] then []
    else
      var n := |lines| - 1;
      UpdatesOf(lines[..n], i) + if HasTool(lines[n]) && IndexAt(lines, n) == i then [ToolOf(lines[n])] else []
  }

  function TableFrom(lines: seq<Line>, ix: IndexView): IndexView {
    if lines == [] then ix
    else if HasTool(lines[0]) then TableFrom(lines[1..], IndexFor(ix, ToolOf(lines[0]).callId, ToolOf(lines[0]).name).0)
    else TableFrom(lines[1..], ix)
  }

  lemma {:induction false} FiledLast(lines: seq<Line>, last: Line, ix: IndexView, i: nat)
    ensures Filed(lines + [last], ix, i) == Filed(lines, ix, i) + Filed([last], TableFrom(lines, ix), i)
    ensures TableFrom(lines + [last], ix) == TableFrom([last], TableFrom(lines, ix))
    decreases |lines|
  {
    if lines == [] {
      assert lines + [last] == [last];
    } else {
      assert (lines + [last])[1..] == lines[1..] + [last];
      var next := if HasTool(lines[0]) then IndexFor(ix, ToolOf(lines[0]).callId, ToolOf(lines[0]).name).0 else ix;
      FiledLast(lines[1..], last, next, i);
      hide IndexFor;
    }
  }

  lemma {:induction false} FiledByIndex(lines: seq<Line>, i: nat)
    ensures Filed(lines, NO_INDEX, i) == UpdatesOf(lines, i)
    ensures TableFrom(lines, NO_INDEX) == TableAfter(lines)
    decreases |lines|
  {
    if lines != [] {
      var n := |lines| - 1;
      FiledByIndex(lines[..n], i);
      assert lines == lines[..n] + [lines[n]];
      FiledLast(lines[..n], lines[n], NO_INDEX, i);
      assert [lines[n]][1..] == [];
      hide IndexFor;
    }
  }

  predicate Replaces(f: ToolFields) {
    f.arguments.Some? && f.mode == Replace
  }

  predicate NoneReplaces(us: seq<ToolFields>) {
    forall k :: 0 <= k < |us| ==> !Replaces(us[k])
  }

  /** The last update that replaces the arguments. */
  predicate LastReplacing(us: seq<ToolFields>, k: nat) {
    k < |us| && Replaces(us[k]) && NoneReplaces(us[k + 1..])
  }

  /** The argument texts of the updates, in order. */
  function Appended(us: seq<ToolFields>): string {
    if us == [] then "" else Text(us[0].arguments) + Appended(us[1..])
  }

  lemma {:induction false} AppendingUpdates(c: CallView, us: seq<ToolFields>)
    requires NoneReplaces(us)
    ensures Updated(c, us).arguments == c.arguments + Appended(us)
    decreases |us|
  {
    if us != [] {
      AppendingUpdates(ApplyDelta(c, us[0]), us[1..]);
      Associate(c.arguments, Text(us[0].arguments), Appended(us[1..]));
      assert c.arguments + "" == c.arguments;
    }
  }

  lemma {:induction false} ReplacingUpdates(c: CallView, us: seq<ToolFields>, k: nat)
    requires LastReplacing(us, k)
    ensures Updated(c, us).arguments == us[k].arguments.value + Appended(us[k + 1..])
    decreases |us|
  {
    if k == 0 {
      AppendingUpdates(ApplyDelta(c, us[0]), us[1..]);
    } else {
      assert us[1..][k..] == us[k + 1..];
      ReplacingUpdates(ApplyDelta(c, us[0]), us[1..], k - 1);
    }
  }

  /** The parts of a call that a later event overwrites. */
  datatype Part = IdPart | NamePart | TypePart

  function Carried(f: ToolFields, part: Part): Option<string> {
    match part
    case IdPart => f.callId
    case NamePart => f.name
    case TypePart => f.toolType
  }

  function Held(c: CallView, part: Part): Option<string> {
    match part
    case IdPart => c.callId
    case NamePart => c.name
    case TypePart => Some(c.toolType)
  }

  predicate NoneCarries(us: seq<ToolFields>, part: Part) {
    forall k :: 0 <= k < |us| ==> !Truthy(Carried(us[k], part))
  }

  predicate LastCarrying(us: seq<ToolFields>, part: Part, k: nat) {
    k < |us| && Truthy(Carried(us[k], part)) && NoneCarries(us[k + 1..], part)
  }

  lemma {:induction false} KeptPart(c: CallView, us: seq<ToolFields>, part: Part)
    requires NoneCarries(us, part)
    ensures Held(Updated(c, us), part) == Held(c, part)
    decreases |us|
  {
    if us != [] {
      KeptPart(ApplyDelta(c, us[0]), us[1..], part);
      assert !Truthy(Carried(us[0], part));
    }
  }

  lemma {:induction false} OverwrittenPart(c: CallView, us: seq<ToolFields>, part: Part, k: nat)
    requires LastCarrying(us, part, k)
    ensures Held(Updated(c, us), part) == Carried(us[k], part)
    decreases |us|
  {
    if k == 0 {
      KeptPart(ApplyDelta(c, us[0]), us[1..], part);
    } else {
      assert us[1..][k..] == us[k + 1..];
      OverwrittenPart(ApplyDelta(c, us[0]), us[1..], part, k - 1);
    }
  }

  /**
   Call `i` on the lines: its arguments are the text of the last replacing update filed under it
   and the texts of the appending updates after it; its id, its name and its type are the last
   non-empty ones carried.
   */
  lemma {:induction false} CallOnLines(lines: seq<Line>, i: nat)
    ensures var us, c := UpdatesOf(lines, i), CallOf(lines, i);
            && c.index == i
            && (NoneReplaces(us) ==> c.arguments == Appended(us))
            && (forall k: nat :: LastReplacing(us, k) ==> c.arguments == us[k].arguments.value + Appended(us[k + 1..]))
            && (forall part :: NoneCarries(us, part) ==>
                  Held(c, part) == if part.TypePart? then Some("function") else None)
            && (forall part, k: nat :: LastCarrying(us, part, k) ==> Held(c, part) == Carried(us[k], part))
  {
    FiledByIndex(lines, i);
    var us := UpdatesOf(lines, i);
    UpdatedIndex(FreshCall(i), us);
    if NoneReplaces(us) {
      AppendingUpdates(FreshCall(i), us);
      assert "" + Appended(us) == Appended(us);
    }
    forall k: nat | LastReplacing(us, k) {
      ReplacingUpdates(FreshCall(i), us, k);
    }
    forall part | NoneCarries(us, part) {
      KeptPart(FreshCall(i), us, part);
    }
    forall part, k: nat | LastCarrying(us, part, k) {
      OverwrittenPart(FreshCall(i), us, part, k);
    }
  }

  lemma {:induction false} UpdatedIndex(c: CallView, us: seq<ToolFields>)
    ensures Updated(c, us).index == c.index
    decreases |us|
  {
    if us != [] {
      UpdatedIndex(ApplyDelta(c, us[0]), us[1..]);
    }
  }

  // ---------- The message ----------

  /** The events whose last occurrence counts for the collector. */
  datatype Mark = ReportsUsage | ReportsId | ReportsReason

  predicate Marked(line: Line, mark: Mark) {
    && line.Event? && IsClosing(line.payload) && line.payload.response.Some?
    && (mark.ReportsId? ==> line.payload.response.value.id.Some?)
    && (mark.ReportsReason? ==> line.payload.kind == Incomplete)
  }

  predicate NoneMarked(lines: seq<Line>, mark: Mark) {
    forall k :: 0 <= k < |lines| ==> !Marked(lines[k], mark)
  }

  predicate LastMarked(lines: seq<Line>, mark: Mark, k: nat) {
    k < |lines| && Marked(lines[k], mark) && NoneMarked(lines[k + 1..], mark)
  }

  /** How an incomplete response ends a chat completion. */
  function FinishOf(reason: Option<string>): string {
    match reason
    case Some("max_output_tokens") => "length"
    case Some("max_tokens") => "length"
    case Some("content_filter") => "content_filter"
    case _ => "stop"
  }

  predicate Unmarked(a: Collected, b: Collected, mark: Mark) {
    match mark
    case ReportsUsage => b.usage == a.usage
    case ReportsId => b.responseId == a.responseId
    case ReportsReason => b.incompleteReason == a.incompleteReason
  }

  predicate TakenFrom(line: Line, b: Collected, mark: Mark)
    requires Marked(line, mark)
  {
    var r := line.payload.response.value;
    match mark
    case ReportsUsage => b.usage == r.usage
    case ReportsId => b.responseId == r.id
    case ReportsReason => b.incompleteReason == Some(FinishOf(r.incompleteReason))
  }

  lemma {:induction false} EventMarks(a: Collected, p: Payload, mark: Mark)
    requires !IsFailure(p)
    ensures CollectEvent(a, p).Gathered?
    ensures var b := CollectEvent(a, p).acc;
            if Marked(Event(p), mark) then TakenFrom(Event(p), b, mark) else Unmarked(a, b, mark)
  {
  }

  lemma {:induction false} UnmarkedLines(lines: seq<Line>, a: Collected, mark: Mark)
    requires NoFailure(lines) && NoneMarked(lines, mark)
    ensures CollectLines(lines, a).Gathered? && Unmarked(a, CollectLines(lines, a).acc, mark)
    decreases |lines|
  {
    hide CollectEvent;
    if lines != [] {
      assert !Marked(lines[0], mark);
      if lines[0].Event? {
        EventMarks(a, lines[0].payload, mark);
        UnmarkedLines(lines[1..], CollectEvent(a, lines[0].payload).acc, mark);
      } else {
        UnmarkedLines(lines[1..], a, mark);
      }
    }
  }

  lemma {:induction false} LastMarkCounts(lines: seq<Line>, a: Collected, mark: Mark, k: nat)
    requires NoFailure(lines) && LastMarked(lines, mark, k)
    ensures CollectLines(lines, a).Gathered? && TakenFrom(lines[k], CollectLines(lines, a).acc, mark)
    decreases |lines|
  {
    hide CollectEvent;
    if k == 0 {
      EventMarks(a, lines[0].payload, mark);
      UnmarkedLines(lines[1..], CollectEvent(a, lines[0].payload).acc, mark);
    } else {
      assert lines[1..][k..] == lines[k + 1..];
      if lines[0].Event? {
        EventMarks(a, lines[0].payload, mark);
        LastMarkCounts(lines[1..], CollectEvent(a, lines[0].payload).acc, mark, k - 1);
      } else {
        LastMarkCounts(lines[1..], a, mark, k - 1);
      }
    }
  }

  lemma {:induction false} LinesCollected(lines: seq<Line>, a: Collected)
    requires NoFailure(lines) && CollectorOk(a)
    ensures var r := CollectLines(lines, a);
            && r.Gathered? && CollectorOk(r.acc)
            && r.acc.content == a.content + Texts(lines, TextDelta)
            && r.acc.refusal == a.refusal + Texts(lines, RefusalDelta)
    decreases |lines|
  {
    hide CollectEvent;
    hide CollectorOk;
    if lines != [] {
      if lines[0].Event? {
        var p := lines[0].payload;
        CollectEventGrows(a, p);
        LinesCollected(lines[1..], CollectEvent(a, p).acc);
        Associate(a.content, if p.kind == TextDelta then Text(p.delta) else "", Texts(lines[1..], TextDelta));
        Associate(a.refusal, if p.kind == RefusalDelta then Text(p.delta) else "", Texts(lines[1..], RefusalDelta));
      } else {
        LinesCollected(lines[1..], a);
        assert "" + Texts(lines[1..], TextDelta) == Texts(lines[1..], TextDelta);
        assert "" + Texts(lines[1..], RefusalDelta) == Texts(lines[1..], RefusalDelta);
      }
    }
  }

  /** The message form of a call. */
  predicate Shows(m: MessageCall, c: CallView) {
    && m.id == c.callId
    && m.toolType == (if c.toolType == "" then "function" else c.toolType)
    && (m.function_ == None <==> c.name == None && c.arguments == "")
    && (m.function_.Some? ==>
          && m.function_.value.name == c.name
          && m.function_.value.arguments == if c.arguments == "" then None else Some(c.arguments))
  }

  /** Every call is shown in order, except a first one that carries nothing. */
  predicate ShowsCalls(shown: seq<MessageCall>, calls: seq<CallView>) {
    if calls != [] && calls[0].callId == None && calls[0].name == None && calls[0].arguments == ""
    then ShownFromCall(shown, calls, 1) else ShownFromCall(shown, calls, 0)
  }

  lemma {:induction false} CallShown(c: CallView)
    requires Identified(c)
    ensures ToMessageCall(c).Some? && Shows(ToMessageCall(c).value, c)
  {
  }

  lemma {:induction false} ReportedCallsShown(calls: seq<CallView>)
    requires forall i :: 0 <= i < |calls| ==> Identified(calls[i])
    ensures |CompactCalls(calls)| == |calls|
    ensures forall i :: 0 <= i < |calls| ==> Shows(CompactCalls(calls)[i], calls[i])
  {
    CompactLength(calls);
    hide CompactCalls;
    forall i | 0 <= i < |calls| ensures Shows(CompactCalls(calls)[i], calls[i]) {
      CallShown(calls[i]);
    }
  }

  /** All calls but the first `skipped` ones are shown, in order. */
  predicate ShownFromCall(shown: seq<MessageCall>, calls: seq<CallView>, skipped: nat) {
    && |shown| == |calls| - skipped
    && forall i :: skipped <= i < |calls| ==> Shows(shown[i - skipped], calls[i])
  }

  lemma {:induction false} RestShown(calls: seq<CallView>)
    requires calls != [] && !Identified(calls[0]) && KeyedLater(calls)
    ensures ShownFromCall(CompactCalls(calls), calls, 1)
  {
    DropFirst(calls);
    var rest := calls[1..];
    assert forall i :: 0 <= i < |rest| ==> rest[i] == calls[i + 1];
    ReportedCallsShown(rest);
    hide CompactCalls;
    hide Shows;
    forall i | 1 <= i < |calls| ensures Shows(CompactCalls(calls)[i - 1], calls[i]) {
      assert rest[i - 1] == calls[i];
    }
  }

  lemma {:induction false} CallsShown(calls: seq<CallView>)
    requires KeyedLater(calls)
    ensures ShowsCalls(CompactCalls(calls), calls)
  {
    if calls != [] && !Identified(calls[0]) {
      RestShown(calls);
      hide ShownFromCall;
    } else {
      ReportedCallsShown(calls);
      hide Shows;
    }
    hide CompactCalls;
  }

  /**
   What the collector returns, stated on the lines: the texts in order, the content withheld only
   when it is empty beside a refusal or a call, the finish reason of the calls or else of the last
   incomplete response, and the calls that the lines leave.
   */
  lemma {:induction false} CollectedOnLines(lines: seq<Line>)
    requires NoFailure(lines)
    ensures var r := CollectLines(lines, NOTHING_COLLECTED);
            && r.Gathered?
            && var m := CollectedMessage(r.acc);
            && ShowsTexts(m, Texts(lines, TextDelta), Texts(lines, RefusalDelta))
            && ShowsFinish(m, lines)
            && ShowsCalls(m.toolCalls, r.acc.calls)
            && (forall i: nat :: i < |r.acc.calls| <==> UpdatesOf(lines, i) != [])
            && (forall i :: 0 <= i < |r.acc.calls| ==> r.acc.calls[i] == CallOf(lines, i))
  {
    CollectorStartsOk();
    LinesCollected(lines, NOTHING_COLLECTED);
    assert "" + Texts(lines, TextDelta) == Texts(lines, TextDelta);
    assert "" + Texts(lines, RefusalDelta) == Texts(lines, RefusalDelta);
    var a := CollectLines(lines, NOTHING_COLLECTED).acc;
    CallsShown(a.calls);
    FinishOnLines(lines);
    forall i: nat
      ensures CallOr(a.calls, i) == CallOf(lines, i)
      ensures i < |a.calls| <==> UpdatesOf(lines, i) != []
    {
      CallOfLines(lines, i);
      FiledByIndex(lines, i);
    }
    hide CollectLines;
    hide CompactCalls;
    hide CallOf;
    hide UpdatesOf;
    hide ShowsCalls;
    hide ShowsFinish;
  }

  predicate ShowsTexts(m: Message, content: string, refusal: string) {
    && m.content == (if content == "" && (refusal != "" || m.toolCalls != []) then None else Some(content))
    && m.refusal == (if refusal == "" then None else Some(refusal))
  }

  ghost predicate ShowsFinish(m: Message, lines: seq<Line>) {
    && (m.toolCalls != [] ==> m.finishReason == Some("tool_calls"))
    && (m.toolCalls == [] && NoneMarked(lines, ReportsReason) ==> m.finishReason == Some("stop"))
    && (forall k: nat :: m.toolCalls == [] && LastMarked(lines, ReportsReason, k) ==>
          m.finishReason == Some(FinishOf(lines[k].payload.response.value.incompleteReason)))
  }

  lemma {:induction false} FinishOnLines(lines: seq<Line>)
    requires NoFailure(lines) && CollectLines(lines, NOTHING_COLLECTED).Gathered?
    ensures ShowsFinish(CollectedMessage(CollectLines(lines, NOTHING_COLLECTED).acc), lines)
  {
    if NoneMarked(lines, ReportsReason) {
      UnmarkedLines(lines, NOTHING_COLLECTED, ReportsReason);
    }
    forall k: nat | LastMarked(lines, ReportsReason, k) {
      LastMarkCounts(lines, NOTHING_COLLECTED, ReportsReason, k);
    }
    hide CollectLines;
    hide CompactCalls;
  }

  // ---------- What the stream shows ----------

  lemma {:induction false} FiledSomewhere(lines: seq<Line>, k: nat)
    requires k < |lines| && HasTool(lines[k])
    ensures UpdatesOf(lines, IndexAt(lines, k)) != []
    decreases |lines|
  {
    var n := |lines| - 1;
    if k < n {
      assert lines[..n][..k] == lines[..k];
      FiledSomewhere(lines[..n], k);
    }
  }

  lemma {:induction false} FiledFromSomewhere(lines: seq<Line>, i: nat)
    requires UpdatesOf(lines, i) != []
    ensures exists k :: 0 <= k < |lines| && HasTool(lines[k])
    decreases |lines|
  {
    var n := |lines| - 1;
    if !HasTool(lines[n]) {
      FiledFromSomewhere(lines[..n], i);
      var k :| 0 <= k < n && HasTool(lines[..n][k]);
      assert HasTool(lines[k]);
    }
  }

  /** The closing event tells at least one token count. */
  predicate ReportsCounts(p: Payload) {
    && p.response.Some? && p.response.value.usage.Some?
    && var u := p.response.value.usage.value;
    u.prompt.Some? || u.completion.Some? || u.total.Some?
  }

  lemma {:induction false} ClosingUsage(opening: seq<Line>, closing: Payload)
    requires AllOpen(opening) && IsClosing(closing)
    ensures var r := CollectLines(opening + [Event(closing)], NOTHING_COLLECTED);
            && r.Gathered?
            && MapUsage(r.acc.usage) == if ReportsCounts(closing) then closing.response.value.usage else None
  {
    var head := opening + [Event(closing)];
    var n := |opening|;
    assert head[n] == Event(closing) && head[n + 1..] == [];
    if Marked(head[n], ReportsUsage) {
      LastMarkCounts(head, NOTHING_COLLECTED, ReportsUsage, n);
    } else {
      UnmarkedLines(head, NOTHING_COLLECTED, ReportsUsage);
    }
  }

  /**
   What a client has at the closing event, stated on the lines: the texts in order, and a finish
   reason that is `tool_calls` exactly when some event was of a tool call, else the closing event's;
   and, if asked for, the token counts that event tells.
   */
  lemma {:induction false} ClientOnLines(opening: seq<Line>, closing: Payload, includeUsage: bool)
    requires AllOpen(opening) && IsClosing(closing)
    ensures var head := opening + [Event(closing)];
            var client := Replay(IterChunks(head, INITIAL, includeUsage).chunks);
            && client.content == Texts(head, TextDelta) && client.refusal == Texts(head, RefusalDelta)
            && client.finish == Some(if exists k :: 0 <= k < |head| && HasTool(head[k]) then "tool_calls"
                                     else if closing.kind == Incomplete && closing.response.Some?
                                     then FinishOf(closing.response.value.incompleteReason) else "stop")
            && client.usage == (if includeUsage && ReportsCounts(closing) then closing.response.value.usage else None)
  {
    var head := opening + [Event(closing)];
    CloseTogether(opening, closing, includeUsage);
    CollectorStartsOk();
    LinesCollected(head, NOTHING_COLLECTED);
    assert "" + Texts(head, TextDelta) == Texts(head, TextDelta);
    assert "" + Texts(head, RefusalDelta) == Texts(head, RefusalDelta);
    ClosingReason(opening, closing);
    ClosingUsage(opening, closing);
    CallOfLines(head, 0);
    FiledByIndex(head, 0);
    if k :| 0 <= k < |head| && HasTool(head[k]) {
      FiledSomewhere(head, k);
      CallOfLines(head, IndexAt(head, k));
      FiledByIndex(head, IndexAt(head, k));
    } else if UpdatesOf(head, 0) != [] {
      FiledFromSomewhere(head, 0);
    }
    hide IterChunks;
    hide CollectLines;
    hide StreamInv;
    hide UpdatesOf;
  }

  lemma {:induction false} ClosingReason(opening: seq<Line>, closing: Payload)
    requires AllOpen(opening) && IsClosing(closing)
    ensures var r := CollectLines(opening + [Event(closing)], NOTHING_COLLECTED);
            && r.Gathered?
            && r.acc.incompleteReason == if closing.kind == Incomplete && closing.response.Some?
                                         then Some(FinishOf(closing.response.value.incompleteReason)) else None
  {
    var head := opening + [Event(closing)];
    var n := |opening|;
    assert head[n] == Event(closing) && head[n + 1..] == [];
    if Marked(head[n], ReportsReason) {
      LastMarkCounts(head, NOTHING_COLLECTED, ReportsReason, n);
    } else {
      UnmarkedLines(head, NOTHING_COLLECTED, ReportsReason);
    }
  }
}
