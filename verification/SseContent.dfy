/**
 What the framing of a server-sent event stream keeps: every byte that is not white space comes
 out, in order, in events that each end at their own first separator.
 */
module SseContent {
  import opened Options
  import opened Sequences
  import opened SseFraming

  /** The bytes that `bytes.strip` does not remove. */
  function Visible(bytes: Bytes): Bytes {
    if bytes == [] then []
    else (if 9 <= bytes[0] <= 13 || bytes[0] == 32 then [] else [bytes[0]]) + Visible(bytes[1..])
  }

  lemma {:induction false} VisibleAppend(x: Bytes, y: Bytes)
    ensures Visible(x + y) == Visible(x) + Visible(y)
    decreases |x|
  {
    if x == [] {
      assert x + y == y;
    } else {
      assert (x + y)[1..] == x[1..] + y;
      VisibleAppend(x[1..], y);
    }
  }

  lemma {:induction false} BlankExactly(f: Bytes)
    ensures BlankFrame(f) <==> Visible(f) == []
    decreases |f|
  {
    if f != [] {
      BlankExactly(f[1..]);
      assert BlankFrame(f) <==> BlankByte(f[0]) && BlankFrame(f[1..]) by {
        assert forall i :: 1 <= i < |f| ==> f[1..][i - 1] == f[i];
      }
    }
  }

  /** No separator starts before position `i`. */
  ghost predicate NoneBefore(f: Bytes, i: int) {
    forall j, n :: j < i ==> !SeparatorAt(f, j, n)
  }

  /** The frame ends with a separator, and no other starts before that one. */
  ghost predicate EndsAtSeparator(f: Bytes) {
    || (SeparatorAt(f, |f| - 2, 2) && NoneBefore(f, |f| - 2))
    || (SeparatorAt(f, |f| - 4, 4) && NoneBefore(f, |f| - 4))
  }

  lemma {:induction false} FirstFrameEnds(buf: Bytes, end: nat)
    requires FindSeparator(buf).Some? && end == FindSeparator(buf).value.index + FindSeparator(buf).value.length
    ensures end <= |buf| && EndsAtSeparator(buf[..end])
  {
    var s := FindSeparator(buf).value;
    hide FindSeparator;
    var f := buf[..end];
    assert buf == f + buf[end..];
    SeparatorInPrefix(f, buf[end..], s.index, s.length);
    forall j, n | j < s.index ensures !SeparatorAt(f, j, n) {
      if j + n <= end {
        SeparatorInPrefix(f, buf[end..], j, n);
      }
    }
    assert NoneBefore(f, s.index);
  }

  ghost predicate AllEnd(frames: seq<Bytes>) {
    forall i :: 0 <= i < |frames| ==> EndsAtSeparator(frames[i])
  }

  predicate AllVisible(frames: seq<Bytes>) {
    forall i :: 0 <= i < |frames| ==> Visible(frames[i]) != []
  }

  lemma {:induction false} DrainedFramesEnd(buf: Bytes, limit: int)
    ensures AllEnd(Drain(buf, limit).frames)
    decreases |buf|
  {
    hide FindSeparator;
    hide Drain;
    hide EndsAtSeparator;
    match FindSeparator(buf)
    case None =>
      DrainWithoutSeparator(buf, limit);
    case Some(sep) =>
      var end := sep.index + sep.length;
      DrainAfterPop(buf, limit);
      FirstFrameEnds(buf, end);
      DrainedFramesEnd(buf[end..], limit);
  }

  lemma {:induction false} YieldedKeepsVisible(frames: seq<Bytes>)
    ensures Visible(Concat(Yielded(frames))) == Visible(Concat(frames))
    ensures AllVisible(Yielded(frames)) && (AllEnd(frames) ==> AllEnd(Yielded(frames)))
    decreases |frames|
  {
    if frames != [] {
      var f, rest := frames[0], frames[1..];
      YieldedKeepsVisible(rest);
      BlankExactly(f);
      VisibleAppend(f, Concat(rest));
      hide BlankFrame;
      hide EndsAtSeparator;
      hide Visible;
      var kept := Yielded(rest);
      if BlankFrame(f) {
        assert Yielded(frames) == kept;
        assert [] + Visible(Concat(rest)) == Visible(Concat(rest));
      } else {
        VisibleAppend(f, Concat(kept));
        assert ([f] + kept)[1..] == kept;
      }
    }
  }

  lemma {:induction false} ConcatLast(frames: seq<Bytes>, last: Bytes)
    ensures Concat(frames + [last]) == Concat(frames) + last
    decreases |frames|
  {
    if frames == [] {
      assert frames + [last] == [last] && [last][1..] == [];
    } else {
      assert (frames + [last])[1..] == frames[1..] + [last];
      ConcatLast(frames[1..], last);
    }
  }

  /** The visible bytes of what is drained and of what is left are those of the buffer. */
  lemma {:induction false} DrainKeepsVisible(bytes: Bytes, limit: int)
    ensures var d := Drain(bytes, limit);
            Visible(bytes) == Visible(Concat(Yielded(d.frames))) + Visible(d.oversized + d.rest)
  {
    var d := Drain(bytes, limit);
    FramingConservesBytes(bytes, limit);
    YieldedKeepsVisible(d.frames);
    hide Drain;
    hide Yielded;
    hide Visible;
    Associate(Concat(d.frames), d.oversized, d.rest);
    VisibleAppend(Concat(d.frames), d.oversized + d.rest);
  }

  lemma {:induction false} NotOversized(buf: Bytes, limit: int)
    ensures Drain(buf, limit).tooLarge.None? ==> Drain(buf, limit).oversized == []
    decreases |buf|
  {
    hide FindSeparator;
    match FindSeparator(buf)
    case None =>
    case Some(sep) => NotOversized(buf[sep.index + sep.length..], limit);
  }

  lemma {:induction false} WholeKeepsVisible(bytes: Bytes, limit: int)
    ensures var w := Whole(bytes, limit);
            && (w.tooLarge.None? ==> Visible(Concat(w.events)) == Visible(bytes))
            && (w.tooLarge.Some? ==> Visible(Concat(w.events)) <= Visible(bytes))
  {
    var d := Drain(bytes, limit);
    DrainKeepsVisible(bytes, limit);
    NotOversized(bytes, limit);
    hide Drain;
    hide Yielded;
    hide Visible;
    var events := Yielded(d.frames);
    assert d.tooLarge.None? ==> d.oversized + d.rest == d.rest;
    assert events + [] == events;
    ConcatLast(events, d.rest);
    VisibleAppend(Concat(events), d.rest);
    assert Concat(events) + [] == Concat(events);
  }

  /** Event `i` holds visible bytes and ends at its separator, or it is the unterminated rest. */
  ghost predicate EventOk(events: seq<Bytes>, failed: bool, i: nat)
    requires i < |events|
  {
    || (Visible(events[i]) != [] && EndsAtSeparator(events[i]))
    || (i == |events| - 1 && !failed && NoneBefore(events[i], |events[i]|))
  }

  lemma {:induction false} WholeEventsOk(bytes: Bytes, limit: int)
    ensures var w := Whole(bytes, limit);
            forall i :: 0 <= i < |w.events| ==> EventOk(w.events, w.tooLarge.Some?, i)
  {
    var d := Drain(bytes, limit);
    DrainedFramesEnd(bytes, limit);
    YieldedKeepsVisible(d.frames);
    if d.tooLarge.None? {
      DrainLeavesQuiet(bytes, limit);
      assert NoneBefore(d.rest, |d.rest|);
    }
    hide Drain;
    hide Yielded;
    hide Visible;
    hide Quiet;
    hide FindSeparator;
    hide EndsAtSeparator;
    hide NoneBefore;
  }

  /**
   For every split of a stream into chunks: without an error the visible bytes of the events,
   concatenated, are those of the stream, and with one they are a prefix of them. Each event holds
   visible bytes and ends at its first separator, except for an unterminated last one.
   */
  lemma {:induction false} EventsKeepVisibleBytes(chunks: seq<Bytes>, limit: int)
    ensures var o := IterEvents(chunks, [], limit);
            && (o.tooLarge.None? ==> Visible(Concat(o.events)) == Visible(Concat(chunks)))
            && (o.tooLarge.Some? ==> Visible(Concat(o.events)) <= Visible(Concat(chunks)))
            && forall i :: 0 <= i < |o.events| ==> EventOk(o.events, o.tooLarge.Some?, i)
  {
    IterIsWhole(chunks, [], limit);
    assert [] + Concat(chunks) == Concat(chunks);
    WholeKeepsVisible(Concat(chunks), limit);
    WholeEventsOk(Concat(chunks), limit);
    hide *;
  }
}
