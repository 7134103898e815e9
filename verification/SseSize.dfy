/**
 The size that `_iter_sse_events` of app/core/clients/proxy.py names in its too-large error, for
 every way of cutting the bytes into chunks.
 */
module SseSize {
  import opened Options
  import opened SseFraming

  /** Bytes of the frames accepted before the failure. */
  function Accepted(d: Drained): (n: int)
    ensures n >= 0
  {
    |Concat(d.frames)|
  }

  /**
   Bytes that had arrived behind `have` at the first chunk boundary where they exceed the limit;
   empty chunks are passed over.
   */
  function Arrived(chunks: seq<Bytes>, have: int, limit: int): Option<int>
    decreases |chunks|
  {
    if chunks == [] then None
    else if chunks[0] == [] then Arrived(chunks[1..], have, limit)
    else if have + |chunks[0]| > limit then Some(have + |chunks[0]|)
    else Arrived(chunks[1..], have + |chunks[0]|, limit)
  }

  /** The oversized frame if it is complete, or else everything that has arrived of it. */
  function SizeAt(d: Drained, arrived: int): int {
    if d.oversized != [] && |d.oversized| <= arrived then |d.oversized| else arrived
  }

  predicate Overflows(bytes: Bytes, limit: int) {
    bytes != [] && Drain(bytes, limit).tooLarge.Some?
  }

  // ---------- One chunk ----------

  lemma {:induction false} ConcatLength(xs: seq<Bytes>, ys: seq<Bytes>)
    ensures |Concat(xs + ys)| == |Concat(xs)| + |Concat(ys)|
    decreases |xs|
  {
    if xs == [] {
      assert xs + ys == ys;
    } else {
      assert (xs + ys)[1..] == xs[1..] + ys;
      ConcatLength(xs[1..], ys);
    }
  }

  /** The size reported for a buffer, seen from everything that follows it. */
  ghost predicate Reported(buf: Bytes, d: Drained, all: Drained, limit: int) {
    && d.tooLarge.Some? && |buf| - Accepted(d) > limit
    && d.tooLarge.value == SizeAt(all, |buf| - Accepted(d))
  }

  lemma {:induction false} ReportedWithoutSeparator(buf: Bytes, more: Bytes, limit: int)
    requires FindSeparator(buf).None? && |buf| > limit
    ensures Reported(buf, Drain(buf, limit), Drain(buf + more, limit), limit)
  {
    DrainWithoutSeparator(buf, limit);
    hide FindSeparator;
    var s := FindSeparator(buf + more);
    if s.None? {
      DrainWithoutSeparator(buf + more, limit);
    } else {
      if s.value.index + s.value.length <= |buf| {
        SeparatorInPrefix(buf, more, s.value.index, s.value.length);
      }
      DrainAfterPop(buf + more, limit);
    }
    hide Drain;
  }

  lemma {:induction false} ReportedFromHere(buf: Bytes, more: Bytes, limit: int)
    requires Drain(buf, limit).tooLarge.Some?
    ensures Reported(buf, Drain(buf, limit), Drain(buf + more, limit), limit)
    decreases |buf|
  {
    hide FindSeparator;
    hide Drain;
    match FindSeparator(buf)
    case None =>
      DrainWithoutSeparator(buf, limit);
      ReportedWithoutSeparator(buf, more, limit);
    case Some(sep) =>
      var end := sep.index + sep.length;
      SeparatorIsStable(buf, more);
      DrainAfterPop(buf, limit);
      DrainAfterPop(buf + more, limit);
      CutAfter(buf, more, end);
      hide SizeAt;
      if end <= limit {
        ReportedFromHere(buf[end..], more, limit);
      }
  }

  lemma {:induction false} CutAfter(buf: Bytes, more: Bytes, end: nat)
    requires end <= |buf|
    ensures (buf + more)[..end] == buf[..end] && (buf + more)[end..] == buf[end..] + more
  {
  }

  /** What stays in the buffer after a chunk, when the limit is kept. */
  lemma {:induction false} RestLength(buf: Bytes, limit: int)
    requires Drain(buf, limit).tooLarge.None?
    ensures |Drain(buf, limit).rest| == |buf| - Accepted(Drain(buf, limit)) <= limit
  {
    FramingConservesBytes(buf, limit);
    DrainLeavesQuiet(buf, limit);
    NothingOversized(buf, limit);
    hide Drain;
    hide FindSeparator;
    hide Concat;
  }

  /** Where the limit is kept, no frame was rejected. */
  lemma {:induction false} NothingOversized(buf: Bytes, limit: int)
    requires Drain(buf, limit).tooLarge.None?
    ensures Drain(buf, limit).oversized == []
    decreases |buf|
  {
    hide FindSeparator;
    match FindSeparator(buf)
    case None => DrainWithoutSeparator(buf, limit);
    case Some(sep) => NothingOversized(buf[sep.index + sep.length..], limit);
  }

  // ---------- Every split ----------

  /** With `have` bytes buffered, `size` is what the chunks make the error name. */
  ghost predicate Names(chunks: seq<Bytes>, have: int, d: Drained, overflows: bool, size: Option<nat>, limit: int) {
    if overflows then
      var arrived := Arrived(chunks, have - Accepted(d), limit);
      arrived.Some? && size.Some? && size.value == SizeAt(d, arrived.value)
    else size.None?
  }

  lemma {:induction false} NamesAtOnce(chunks: seq<Bytes>, have: int, d: Drained, size: Option<nat>, limit: int)
    requires chunks != [] && chunks[0] != [] && have + |chunks[0]| - Accepted(d) > limit
    requires size.Some? && size.value == SizeAt(d, have + |chunks[0]| - Accepted(d))
    ensures Names(chunks, have, d, true, size, limit)
  {
    hide Accepted;
    hide SizeAt;
  }

  lemma {:induction false} NamesLater(chunks: seq<Bytes>, have: int, rest: int, first: Drained, e: Drained,
                                      d: Drained, overflows: bool,
                   size: Option<nat>, limit: int)
    requires chunks != [] && chunks[0] != [] && rest == have + |chunks[0]| - Accepted(first) <= limit
    requires d.oversized == e.oversized && Accepted(d) == Accepted(first) + Accepted(e)
    requires Names(chunks[1..], rest, e, overflows, size, limit)
    ensures Names(chunks, have, d, overflows, size, limit)
  {
    hide Accepted;
  }

  lemma {:induction false} AcceptedAppend(first: Drained, e: Drained)
    ensures Accepted(e.(frames := first.frames + e.frames)) == Accepted(first) + Accepted(e)
  {
    ConcatLength(first.frames, e.frames);
  }

  lemma {:induction false} IterNames(chunks: seq<Bytes>, buf: Bytes, limit: int)
    requires Quiet(buf, limit)
    ensures var bytes := buf + Concat(chunks);
            Names(chunks, |buf|, Drain(bytes, limit), Overflows(bytes, limit), IterEvents(chunks, buf, limit).tooLarge, limit)
    decreases |chunks|
  {
    hide Names;
    hide Drain;
    hide FindSeparator;
    hide Yielded;
    if chunks == [] {
      NothingToName(buf, limit);
    } else if chunks[0] == [] {
      assert Concat(chunks) == Concat(chunks[1..]);
      IterNames(chunks[1..], buf, limit);
      EmptyChunkNames(chunks, |buf|, Drain(buf + Concat(chunks), limit), Overflows(buf + Concat(chunks), limit),
                      IterEvents(chunks, buf, limit).tooLarge, limit);
    } else {
      var now, later := buf + chunks[0], Concat(chunks[1..]);
      assert buf + Concat(chunks) == now + later;
      if Drain(now, limit).tooLarge.Some? {
        NamedByChunk(now, later, limit);
        NamesAtOnce(chunks, |buf|, Drain(now + later, limit), Drain(now, limit).tooLarge, limit);
      } else {
        DrainLeavesQuiet(now, limit);
        IterNames(chunks[1..], Drain(now, limit).rest, limit);
        NamedLater(chunks, buf, IterEvents(chunks[1..], Drain(now, limit).rest, limit).tooLarge, limit);
      }
    }
  }

  lemma {:induction false} NothingToName(buf: Bytes, limit: int)
    requires Quiet(buf, limit)
    ensures var bytes := buf + Concat([]);
            Names([], |buf|, Drain(bytes, limit), Overflows(bytes, limit), IterEvents([], buf, limit).tooLarge, limit)
  {
    assert buf + [] == buf;
    DrainWithoutSeparator(buf, limit);
    hide Drain;
  }

  lemma {:induction false} EmptyChunkNames(chunks: seq<Bytes>, have: int, d: Drained, overflows: bool,
                                           size: Option<nat>, limit: int)
    requires chunks != [] && chunks[0] == [] && Names(chunks[1..], have, d, overflows, size, limit)
    ensures Names(chunks, have, d, overflows, size, limit)
  {
    hide Accepted;
    hide SizeAt;
  }

  lemma {:induction false} NamedByChunk(now: Bytes, later: Bytes, limit: int)
    requires now != [] && Drain(now, limit).tooLarge.Some?
    ensures var d, all := Drain(now, limit), Drain(now + later, limit);
            && Overflows(now + later, limit) && |now| - Accepted(all) > limit
            && d.tooLarge.value == SizeAt(all, |now| - Accepted(all))
  {
    hide Drain;
    hide FindSeparator;
    hide Concat;
    DrainAppend(now, later, limit);
    ReportedFromHere(now, later, limit);
  }

  lemma {:induction false} NamedLater(chunks: seq<Bytes>, buf: Bytes, size: Option<nat>, limit: int)
    requires chunks != [] && chunks[0] != [] && Drain(buf + chunks[0], limit).tooLarge.None?
    requires var bytes := Drain(buf + chunks[0], limit).rest + Concat(chunks[1..]);
             Names(chunks[1..], |Drain(buf + chunks[0], limit).rest|, Drain(bytes, limit), Overflows(bytes, limit), size, limit)
    ensures var bytes := buf + chunks[0] + Concat(chunks[1..]);
            Names(chunks, |buf|, Drain(bytes, limit), Overflows(bytes, limit), size, limit)
  {
    hide Names;
    hide Concat;
    hide FindSeparator;
    var now, later := buf + chunks[0], Concat(chunks[1..]);
    DrainAppend(now, later, limit);
    RestLength(now, limit);
    hide Drain;
    var first, e := Drain(now, limit), Drain(Drain(now, limit).rest + later, limit);
    AcceptedAppend(first, e);
    assert now + later != [];
    assert first.rest + later == [] ==> e.tooLarge.None?;
    NamesLater(chunks, |buf|, |first.rest|, first, e, Drain(now + later, limit), Overflows(now + later, limit), size, limit);
  }

  /**
   For every split of the bytes: the error is raised exactly on overflow, and names the smaller of
   the oversized frame and of what had arrived of it at the first chunk boundary past the limit.
   */
  lemma {:induction false} ReportedSize(chunks: seq<Bytes>, limit: int)
    ensures Names(chunks, 0, Drain(Concat(chunks), limit), Overflows(Concat(chunks), limit),
                  IterEvents(chunks, [], limit).tooLarge, limit)
  {
    IterNames(chunks, [], limit);
    assert [] + Concat(chunks) == Concat(chunks);
  }

  /** The size a split of overflowing bytes makes the error name. */
  function Named(chunks: seq<Bytes>, limit: int): int
    requires Overflows(Concat(chunks), limit)
  {
    ReportedSize(chunks, limit);
    IterEvents(chunks, [], limit).tooLarge.value
  }

  /** Two splits name the same size exactly when they arrive alike or both complete the oversized frame. */
  lemma {:induction false} SameSizeExactly(xs: seq<Bytes>, ys: seq<Bytes>, limit: int)
    requires Concat(xs) == Concat(ys) && Overflows(Concat(xs), limit)
    ensures Named(xs, limit) == Named(ys, limit) <==> ArriveAlike(Drain(Concat(xs), limit), xs, ys, limit)
  {
    hide Drain;
    hide IterEvents;
    hide Accepted;
    hide Concat;
    ReportedSize(xs, limit);
    ReportedSize(ys, limit);
    hide Arrived;
  }

  ghost predicate ArriveAlike(d: Drained, xs: seq<Bytes>, ys: seq<Bytes>, limit: int) {
    var x, y := Arrived(xs, 0 - Accepted(d), limit), Arrived(ys, 0 - Accepted(d), limit);
    && x.Some? && y.Some?
    && (x == y || (d.oversized != [] && |d.oversized| <= x.value && |d.oversized| <= y.value))
  }

  // ---------- When the chunking cannot matter ----------

  /** The smallest size that any split can report. */
  function LeastSize(limit: int): nat {
    if limit < 0 then 1 else limit + 1
  }

  lemma {:induction false} ArrivedBounds(chunks: seq<Bytes>, have: int, limit: int)
    ensures var a := Arrived(chunks, have, limit);
            a.Some? ==> a.value > limit && have < a.value <= have + |Concat(chunks)|
    decreases |chunks|
  {
    if chunks != [] {
      ArrivedBounds(chunks[1..], if chunks[0] == [] then have else have + |chunks[0]|, limit);
    }
  }

  lemma {:induction false} OverflowFacts(bytes: Bytes, limit: int)
    requires Drain(bytes, limit).tooLarge.Some?
    ensures var d := Drain(bytes, limit);
            && (d.oversized != [] ==> |d.oversized| > limit)
            && (limit < 0 ==> d.frames == [])
    decreases |bytes|
  {
    hide FindSeparator;
    match FindSeparator(bytes)
    case None => DrainWithoutSeparator(bytes, limit);
    case Some(sep) =>
      var end := sep.index + sep.length;
      if end <= limit {
        OverflowFacts(bytes[end..], limit);
      }
  }

  /** Any split reports at least the least size and at most what one single chunk reports. */
  lemma {:induction false} SizeBounds(chunks: seq<Bytes>, limit: int)
    requires Overflows(Concat(chunks), limit)
    ensures var d := Drain(Concat(chunks), limit);
            LeastSize(limit) <= Named(chunks, limit) <= SizeAt(d, |Concat(chunks)| - Accepted(d))
  {
    var d := Drain(Concat(chunks), limit);
    hide Drain;
    hide IterEvents;
    ReportedSize(chunks, limit);
    OverflowFacts(Concat(chunks), limit);
    ArrivedBounds(chunks, 0 - Accepted(d), limit);
    hide Concat;
    hide Arrived;
    hide Accepted;
  }

  /** One single chunk reports the most. */
  lemma {:induction false} LateSplit(bytes: Bytes, limit: int)
    requires Overflows(bytes, limit)
    ensures Concat([bytes]) == bytes
    ensures var d := Drain(bytes, limit);
            Named([bytes], limit) == SizeAt(d, |bytes| - Accepted(d)) && |bytes| - Accepted(d) > limit
  {
    hide Drain;
    hide Concat;
    hide Accepted;
    hide SizeAt;
    hide Named;
    var d := Drain(bytes, limit);
    SplitInTwo(bytes, |bytes|);
    OverflowArrives(bytes, limit);
    assert [bytes] + [] == [bytes];
    hide Arrived;
    NamedExactly([bytes], limit, |bytes| - Accepted(d));
  }

  lemma {:induction false} OverflowArrives(bytes: Bytes, limit: int)
    requires Overflows(bytes, limit)
    ensures |bytes| - Accepted(Drain(bytes, limit)) > limit
  {
    hide Drain;
    hide Accepted;
    assert bytes + [] == bytes;
    ReportedFromHere(bytes, [], limit);
  }

  lemma {:induction false} NamedExactly(chunks: seq<Bytes>, limit: int, arrived: int)
    requires Overflows(Concat(chunks), limit)
    requires Arrived(chunks, 0 - Accepted(Drain(Concat(chunks), limit)), limit) == Some(arrived)
    ensures Named(chunks, limit) == SizeAt(Drain(Concat(chunks), limit), arrived)
  {
    hide Drain;
    hide IterEvents;
    hide Concat;
    hide Accepted;
    hide Arrived;
    hide SizeAt;
    ReportedSize(chunks, limit);
  }

  /** The earliest chunk boundary that crosses the limit. */
  function Crossing(bytes: Bytes, limit: int): (m: nat)
    requires Overflows(bytes, limit)
    ensures 0 < m <= |bytes|
    ensures m == Accepted(Drain(bytes, limit)) + LeastSize(limit)
  {
    OverflowArrives(bytes, limit);
    OverflowFacts(bytes, limit);
    Accepted(Drain(bytes, limit)) + LeastSize(limit)
  }

  lemma {:induction false} LeastSizeIsNamed(bytes: Bytes, limit: int)
    requires Overflows(bytes, limit)
    ensures SizeAt(Drain(bytes, limit), LeastSize(limit)) == LeastSize(limit)
  {
    OverflowFacts(bytes, limit);
    hide Drain;
  }

  /** A first chunk that just crosses the limit reports the least. */
  lemma {:induction false} EarlySplit(bytes: Bytes, limit: int, early: seq<Bytes>)
    requires Overflows(bytes, limit)
    requires early == [bytes[..Crossing(bytes, limit)]] + [bytes[Crossing(bytes, limit)..]]
    ensures Concat(early) == bytes && Named(early, limit) == LeastSize(limit)
  {
    hide Drain;
    hide Accepted;
    hide Concat;
    hide Named;
    hide SizeAt;
    hide Overflows;
    var m := Crossing(bytes, limit);
    hide Crossing;
    SplitInTwo(bytes, m);
    hide Arrived;
    NamedExactly(early, limit, LeastSize(limit));
    LeastSizeIsNamed(bytes, limit);
  }

  lemma {:induction false} SplitInTwo(bytes: Bytes, m: nat)
    requires m <= |bytes|
    ensures Concat([bytes[..m]] + [bytes[m..]]) == bytes && Concat([bytes]) == bytes
  {
    assert [bytes[..m]] + [bytes[m..]] == [bytes[..m], bytes[m..]];
    assert [bytes[..m], bytes[m..]][1..] == [bytes[m..]] && [bytes[m..]][1..] == [] && [bytes][1..] == [];
    assert Concat([bytes[m..]]) == bytes[m..] + Concat([]);
    assert bytes == bytes[..m] + bytes[m..];
  }

  predicate Splits(chunks: seq<Bytes>, bytes: Bytes) {
    Concat(chunks) == bytes
  }

  /** The split makes the error name this size. */
  ghost predicate NamesSize(chunks: seq<Bytes>, bytes: Bytes, limit: int, size: int) {
    Overflows(bytes, limit) && Splits(chunks, bytes) && Named(chunks, limit) == size
  }

  /** Every split of the bytes names this size. */
  ghost predicate AllName(bytes: Bytes, limit: int, size: int) {
    forall chunks :: Splits(chunks, bytes) ==> NamesSize(chunks, bytes, limit, size)
  }

  ghost predicate SizeIsFixed(bytes: Bytes, limit: int) {
    exists size :: AllName(bytes, limit, size)
  }

  /** What one single chunk makes the error name. */
  function SingleChunkSize(bytes: Bytes, limit: int): int {
    SizeAt(Drain(bytes, limit), |bytes| - Accepted(Drain(bytes, limit)))
  }

  lemma {:induction false} ExtremesAreNamed(bytes: Bytes, limit: int) returns (late: seq<Bytes>, early: seq<Bytes>)
    requires Overflows(bytes, limit)
    ensures NamesSize(late, bytes, limit, SingleChunkSize(bytes, limit))
    ensures NamesSize(early, bytes, limit, LeastSize(limit))
  {
    hide Drain;
    hide Accepted;
    hide SizeAt;
    hide Named;
    late, early := [bytes], [bytes[..Crossing(bytes, limit)]] + [bytes[Crossing(bytes, limit)..]];
    LateSplit(bytes, limit);
    EarlySplit(bytes, limit, early);
  }

  /**
   The chunking cannot change the reported size exactly when one single chunk already reports the
   least size possible, one byte past the limit.
   */
  lemma {:induction false} SizeIsFixedExactly(bytes: Bytes, limit: int)
    requires Overflows(bytes, limit)
    ensures SizeIsFixed(bytes, limit) <==> SingleChunkSize(bytes, limit) == LeastSize(limit)
  {
    var late, early := ExtremesAreNamed(bytes, limit);
    if SizeIsFixed(bytes, limit) {
      var size :| AllName(bytes, limit, size);
      assert NamesSize(late, bytes, limit, size) && NamesSize(early, bytes, limit, size);
    }
    if SingleChunkSize(bytes, limit) == LeastSize(limit) {
      LeastIsFixed(bytes, limit);
    }
  }

  lemma {:induction false} LeastIsFixed(bytes: Bytes, limit: int)
    requires Overflows(bytes, limit) && SingleChunkSize(bytes, limit) == LeastSize(limit)
    ensures SizeIsFixed(bytes, limit)
  {
    hide Drain;
    hide Accepted;
    forall chunks | Splits(chunks, bytes) ensures NamesSize(chunks, bytes, limit, LeastSize(limit)) {
      SizeBounds(chunks, limit);
    }
    assert AllName(bytes, limit, LeastSize(limit));
  }
}
