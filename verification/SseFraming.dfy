/**
 Incremental framing of a server-sent event stream: `_find_sse_separator`,
 `_pop_sse_event` and `_iter_sse_events` of app/core/clients/proxy.py.
 */
module SseFraming {
  import opened Options
  import opened Sequences

  type Byte = b: int | 0 <= b < 256
  type Bytes = seq<Byte>

  const LF: Byte := 10
  const CR: Byte := 13

  const LFLF: Bytes := [LF, LF]
  const CRLFCRLF: Bytes := [CR, LF, CR, LF]

  // ---------- Finding the separator ----------

  predicate OccursAt(buf: Bytes, pattern: Bytes, i: int) {
    0 <= i && i + |pattern| <= |buf| && buf[i..i + |pattern|] == pattern
  }

  /** `bytes.find`: the first occurrence at or after `from`. */
  function Find(buf: Bytes, pattern: Bytes, from: nat): (r: Option<nat>)
    ensures r.Some? ==> from <= r.value && OccursAt(buf, pattern, r.value)
    ensures r.Some? ==> forall j :: from <= j < r.value ==> !OccursAt(buf, pattern, j)
    ensures r.None? ==> forall j :: from <= j ==> !OccursAt(buf, pattern, j)
    decreases |buf| - from
  {
    if from + |pattern| > |buf| then None
    else if buf[from..from + |pattern|] == pattern then Some(from)
    else if from == |buf| then None
    else Find(buf, pattern, from + 1)
  }

  datatype Separator = Separator(index: nat, length: nat)

  /** One of the two separators, of the given length, starts at `i`. */
  predicate SeparatorAt(buf: Bytes, i: int, length: int) {
    && 0 <= i && i + length <= |buf|
    && (|| (length == 4 && buf[i] == CR && buf[i + 1] == LF && buf[i + 2] == CR && buf[i + 3] == LF)
        || (length == 2 && buf[i] == LF && buf[i + 1] == LF))
  }

  /** The earliest of the two separators. */
  function FindSeparator(buf: Bytes): (r: Option<Separator>)
    ensures r.Some? ==> SeparatorAt(buf, r.value.index, r.value.length)
    ensures r.Some? ==> forall j, n :: j < r.value.index ==> !SeparatorAt(buf, j, n)
    ensures r.None? ==> forall j, n :: !SeparatorAt(buf, j, n)
  {
    assert forall i :: (OccursAt(buf, CRLFCRLF, i) <==> SeparatorAt(buf, i, 4))
                       && (OccursAt(buf, LFLF, i) <==> SeparatorAt(buf, i, 2)) by {
      forall i ensures (OccursAt(buf, CRLFCRLF, i) <==> SeparatorAt(buf, i, 4))
                       && (OccursAt(buf, LFLF, i) <==> SeparatorAt(buf, i, 2)) {
      }
    }
    var crlf := Find(buf, CRLFCRLF, 0);
    var lf := Find(buf, LFLF, 0);
    if crlf.None? && lf.None? then None
    else if lf.None? || (crlf.Some? && crlf.value <= lf.value) then Some(Separator(crlf.value, 4))
    else Some(Separator(lf.value, 2))
  }

  lemma {:induction false} SeparatorInPrefix(buf: Bytes, more: Bytes, i: int, n: int)
    requires i + n <= |buf|
    ensures SeparatorAt(buf + more, i, n) <==> SeparatorAt(buf, i, n)
  {
  }

  /**
   A separator found in the buffer stays the first one whatever arrives later: a CRLF CRLF
   that starts earlier and is still incomplete would have to share its third byte with LF LF.
   */
  lemma {:induction false} SeparatorIsStable(buf: Bytes, more: Bytes)
    requires FindSeparator(buf).Some?
    ensures FindSeparator(buf + more) == FindSeparator(buf)
  {
    hide FindSeparator;
    var s := FindSeparator(buf).value;
    SeparatorInPrefix(buf, more, s.index, s.length);
    var t := FindSeparator(buf + more).value;
    if t.index + t.length <= |buf| {
      SeparatorInPrefix(buf, more, t.index, t.length);
    }
    assert t.index == s.index;
  }

  // ---------- Draining the buffer after each chunk ----------

  /**
   The inner loop: `frames` were popped and accepted, `oversized` was popped and rejected,
   `rest` is what stays in the buffer, and `tooLarge` is the size reported by the error.
   */
  datatype Drained = Drained(frames: seq<Bytes>, oversized: Bytes, rest: Bytes, tooLarge: Option<nat>)

  function Drain(buf: Bytes, limit: int): Drained
    decreases |buf|
  {
    match FindSeparator(buf)
    case None => Drained([], [], buf, if |buf| > limit then Some(|buf|) else None)
    case Some(sep) =>
      var end := sep.index + sep.length;
      if end > limit then Drained([], buf[..end], buf[end..], Some(end))
      else
        var d := Drain(buf[end..], limit);
        d.(frames := [buf[..end]] + d.frames)
  }

  predicate BlankByte(b: Byte) {
    9 <= b <= 13 || b == 32
  }

  /** `raw_event.strip()` is empty. */
  predicate BlankFrame(f: Bytes) {
    forall i :: 0 <= i < |f| ==> BlankByte(f[i])
  }

  function Yielded(frames: seq<Bytes>): seq<Bytes> {
    if frames == [] then []
    else (if BlankFrame(frames[0]) then [] else [frames[0]]) + Yielded(frames[1..])
  }

  datatype Output = Output(events: seq<Bytes>, tooLarge: Option<nat>)

  /** `_iter_sse_events` with `buf` buffered and `chunks` still to arrive. */
  function IterEvents(chunks: seq<Bytes>, buf: Bytes, limit: int): Output
    decreases |chunks|
  {
    if chunks == [] then
      if buf == [] then Output([], None)
      else if |buf| > limit then Output([], Some(|buf|))
      else Output([buf], None)
    else if chunks[0] == [] then IterEvents(chunks[1..], buf, limit)
    else
      var d := Drain(buf + chunks[0], limit);
      if d.tooLarge.Some? then Output(Yielded(d.frames), d.tooLarge)
      else
        var rest := IterEvents(chunks[1..], d.rest, limit);
        Output(Yielded(d.frames) + rest.events, rest.tooLarge)
  }

  function Concat(parts: seq<Bytes>): Bytes {
    if parts == [] then [] else parts[0] + Concat(parts[1..])
  }

  lemma {:induction false} DrainWithoutSeparator(buf: Bytes, limit: int)
    requires FindSeparator(buf).None?
    ensures Drain(buf, limit) == Drained([], [], buf, if |buf| > limit then Some(|buf|) else None)
  {
  }

  lemma {:induction false} DrainAfterPop(buf: Bytes, limit: int)
    requires FindSeparator(buf).Some?
    ensures var end := FindSeparator(buf).value.index + FindSeparator(buf).value.length;
            var d := Drain(buf[end..], limit);
            Drain(buf, limit) == if end > limit then Drained([], buf[..end], buf[end..], Some(end))
                                 else d.(frames := [buf[..end]] + d.frames)
  {
  }

  /** The popped frames and what is left of the buffer put together. */
  function Reassembled(d: Drained): Bytes {
    Concat(d.frames) + d.oversized + d.rest
  }

  lemma {:induction false} ReassembledPush(f: Bytes, d: Drained)
    ensures Reassembled(d.(frames := [f] + d.frames)) == f + Reassembled(d)
  {
    assert ([f] + d.frames)[1..] == d.frames;
    assert Concat([f] + d.frames) == f + Concat(d.frames);
  }

  lemma {:induction false} ReassembledWithoutFrames(o: Bytes, r: Bytes, e: Option<nat>)
    ensures Reassembled(Drained([], o, r, e)) == o + r
  {
  }

  /** No byte is lost, invented or reordered by framing. */
  lemma {:induction false} FramingConservesBytes(buf: Bytes, limit: int)
    ensures Reassembled(Drain(buf, limit)) == buf
    decreases |buf|
  {
    hide FindSeparator;
    hide Drain;
    hide Reassembled;
    match FindSeparator(buf)
    case None =>
      DrainWithoutSeparator(buf, limit);
      ReassembledWithoutFrames([], buf, Drain(buf, limit).tooLarge);
    case Some(sep) =>
      var end := sep.index + sep.length;
      DrainAfterPop(buf, limit);
      assert buf == buf[..end] + buf[end..];
      if end <= limit {
        FramingConservesBytes(buf[end..], limit);
        ReassembledPush(buf[..end], Drain(buf[end..], limit));
      } else {
        ReassembledWithoutFrames(buf[..end], buf[end..], Some(end));
      }
  }

  // ---------- Independence of the chunking ----------

  /** Draining a prefix first and the remainder with what follows is draining everything at once. */
  lemma {:induction false} DrainAppend(buf: Bytes, more: Bytes, limit: int)
    ensures Continues(Drain(buf, limit), Drain(Drain(buf, limit).rest + more, limit), Drain(buf + more, limit))
    decreases |buf|
  {
    hide FindSeparator;
    hide Continues;
    hide Drain;
    match FindSeparator(buf)
    case None =>
      QuietAppend(buf, more, limit);
    case Some(sep) =>
      var end := sep.index + sep.length;
      SeparatorIsStable(buf, more);
      DrainAfterPop(buf, limit);
      DrainAfterPop(buf + more, limit);
      assert (buf + more)[..end] == buf[..end];
      assert (buf + more)[end..] == buf[end..] + more;
      var d := Drain(buf[end..], limit);
      if end <= limit {
        DrainAppend(buf[end..], more, limit);
        ContinuesPush(buf[..end], d, Drain(d.rest + more, limit), Drain(buf[end..] + more, limit));
      } else {
        ContinuesOversized(Drain(buf, limit), Drain(Drain(buf, limit).rest + more, limit), Drain(buf + more, limit));
      }
  }

  /** Draining `d` first and `e` from what it left amounts to draining everything, `all`. */
  predicate Continues(d: Drained, e: Drained, all: Drained) {
    && (d.tooLarge.Some? ==> all.frames == d.frames && all.tooLarge.Some?)
    && (d.tooLarge.None? ==> all == e.(frames := d.frames + e.frames))
  }

  lemma {:induction false} ContinuesPush(f: Bytes, d: Drained, e: Drained, all: Drained)
    requires Continues(d, e, all)
    ensures Continues(d.(frames := [f] + d.frames), e, all.(frames := [f] + all.frames))
  {
    assert [f] + (d.frames + e.frames) == ([f] + d.frames) + e.frames;
  }

  lemma {:induction false} ContinuesOversized(d: Drained, e: Drained, all: Drained)
    requires d.tooLarge.Some? && all.tooLarge.Some? && all.frames == d.frames
    ensures Continues(d, e, all)
  {
  }

  lemma {:induction false} QuietAppend(buf: Bytes, more: Bytes, limit: int)
    requires FindSeparator(buf).None?
    ensures Continues(Drain(buf, limit), Drain(Drain(buf, limit).rest + more, limit), Drain(buf + more, limit))
  {
    hide FindSeparator;
    DrainWithoutSeparator(buf, limit);
    var all := Drain(buf + more, limit);
    if |buf| > limit {
      var s := FindSeparator(buf + more);
      if s.Some? && s.value.index + s.value.length <= |buf| {
        SeparatorInPrefix(buf, more, s.value.index, s.value.length);
      }
    } else {
      hide Drain;
      assert [] + all.frames == all.frames;
    }
  }

  lemma {:induction false} YieldedAppend(xs: seq<Bytes>, ys: seq<Bytes>)
    ensures Yielded(xs + ys) == Yielded(xs) + Yielded(ys)
    decreases |xs|
  {
    hide BlankFrame;
    if xs == [] {
      assert xs + ys == ys;
    } else {
      assert (xs + ys)[1..] == xs[1..] + ys;
      YieldedAppend(xs[1..], ys);
    }
  }

  lemma {:induction false} YieldedPush(frames: seq<Bytes>, f: Bytes)
    ensures Yielded(frames + [f]) == if BlankFrame(f) then Yielded(frames) else Yielded(frames) + [f]
  {
    hide BlankFrame;
    YieldedAppend(frames, [f]);
    assert [f][1..] == [];
    assert Yielded([f]) == if BlankFrame(f) then [] else [f];
  }

  /** What is buffered between two chunks. */
  predicate Quiet(buf: Bytes, limit: int) {
    FindSeparator(buf) == None && (buf == [] || |buf| <= limit)
  }

  lemma {:induction false} DrainLeavesQuiet(buf: Bytes, limit: int)
    requires Drain(buf, limit).tooLarge.None?
    ensures Quiet(Drain(buf, limit).rest, limit) && limit >= 0
    decreases |buf|
  {
    match FindSeparator(buf)
    case None =>
    case Some(sep) => DrainLeavesQuiet(buf[sep.index + sep.length..], limit);
  }

  /** All bytes at once. */
  function Whole(bytes: Bytes, limit: int): Output {
    if bytes == [] then Output([], None)
    else
      var d := Drain(bytes, limit);
      Output(Yielded(d.frames) + (if d.tooLarge.Some? || d.rest == [] then [] else [d.rest]), d.tooLarge)
  }

  /** Same events before, and both or neither raise; the size in the error is not compared. */
  predicate SameOutcome(x: Output, y: Output) {
    x.events == y.events && x.tooLarge.Some? == y.tooLarge.Some?
  }

  lemma {:induction false} IterIsWhole(chunks: seq<Bytes>, buf: Bytes, limit: int)
    requires Quiet(buf, limit)
    ensures SameOutcome(IterEvents(chunks, buf, limit), Whole(buf + Concat(chunks), limit))
    decreases |chunks|
  {
    if chunks == [] {
      assert buf + [] == buf;
    } else if chunks[0] == [] {
      assert buf + Concat(chunks) == buf + Concat(chunks[1..]);
      IterIsWhole(chunks[1..], buf, limit);
    } else {
      var now, later := buf + chunks[0], Concat(chunks[1..]);
      assert buf + Concat(chunks) == now + later;
      DrainAppend(now, later, limit);
      var d := Drain(now, limit);
      if d.tooLarge.None? {
        DrainLeavesQuiet(now, limit);
        IterIsWhole(chunks[1..], d.rest, limit);
        WholeAfterPrefix(now, later, limit);
      }
    }
  }

  lemma {:induction false} WholeAfterPrefix(now: Bytes, later: Bytes, limit: int)
    requires now != [] && Drain(now, limit).tooLarge.None?
    ensures var d := Drain(now, limit);
            var w := Whole(d.rest + later, limit);
            Whole(now + later, limit) == w.(events := Yielded(d.frames) + w.events)
  {
    var d := Drain(now, limit);
    DrainAppend(now, later, limit);
    DrainLeavesQuiet(now, limit);
    hide Drain;
    hide FindSeparator;
    hide Yielded;
    var e := Drain(d.rest + later, limit);
    YieldedAppend(d.frames, e.frames);
    var tail := if e.tooLarge.Some? || e.rest == [] then [] else [e.rest];
    Associate(Yielded(d.frames), Yielded(e.frames), tail);
  }

  /** Any two ways of cutting the same bytes into chunks give the same events and the same failure. */
  lemma {:induction false} ChunkingDoesNotMatter(xs: seq<Bytes>, ys: seq<Bytes>, limit: int)
    requires Concat(xs) == Concat(ys)
    ensures SameOutcome(IterEvents(xs, [], limit), IterEvents(ys, [], limit))
  {
    IterIsWhole(xs, [], limit);
    IterIsWhole(ys, [], limit);
    assert [] + Concat(xs) == Concat(xs);
    assert [] + Concat(ys) == Concat(ys);
  }

  // ---------- The buffer object and the loop ----------

  class SseBuffer {
    var data: Bytes

    constructor ()
      ensures data == []
    {
      data := [];
    }

    method Extend(chunk: Bytes)
      modifies this
      ensures data == old(data) + chunk
    {
      data := data + chunk;
    }

    /** Pops one frame including its separator. */
    method Pop() returns (event: Option<Bytes>)
      modifies this
      ensures event.None? <==> FindSeparator(old(data)).None?
      ensures event.None? ==> data == old(data)
      ensures event.Some? ==> var s := FindSeparator(old(data)).value;
                              event.value == old(data)[..s.index + s.length] && event.value + data == old(data)
    {
      var separator := FindSeparator(data);
      if separator == None {
        return None;
      }
      var end := separator.value.index + separator.value.length;
      event := Some(data[..end]);
      data := data[end..];
    }

    /** The loop after a chunk: yields frames until the buffer holds no separator or a limit is exceeded. */
    method DrainFrames(limit: int) returns (events: seq<Bytes>, tooLarge: Option<nat>)
      modifies this
      ensures var d := Drain(old(data), limit);
              events == Yielded(d.frames) && data == d.rest && tooLarge == d.tooLarge
    {
      hide FindSeparator;
      hide Drain;
      hide BlankFrame;
      events := [];
      ghost var whole := Drain(data, limit);
      ghost var frames: seq<Bytes> := [];
      assert frames + whole.frames == whole.frames;
      while true
        invariant events == Yielded(frames)
        invariant var d := Drain(data, limit);
                  whole == d.(frames := frames + d.frames)
        decreases |data|
      {
        ghost var before := data;
        ghost var d := Drain(data, limit);
        var event := Pop();
        if event == None {
          DrainWithoutSeparator(data, limit);
          assert frames + [] == frames;
          return events, if |data| > limit then Some(|data|) else None;
        }
        DrainAfterPop(before, limit);
        assert data == before[|event.value|..];
        if |event.value| > limit {
          assert frames + [] == frames;
          return events, Some(|event.value|);
        }
        assert frames + ([event.value] + Drain(data, limit).frames) == (frames + [event.value]) + Drain(data, limit).frames;
        YieldedPush(frames, event.value);
        frames := frames + [event.value];
        if !BlankFrame(event.value) {
          events := events + [event.value];
        }
      }
    }
  }

  method IterSseEvents(chunks: seq<Bytes>, limit: int) returns (events: seq<Bytes>, tooLarge: Option<nat>)
    ensures Output(events, tooLarge) == IterEvents(chunks, [], limit)
  {
    hide Drain;
    hide Yielded;
    var buffer := new SseBuffer();
    events := [];
    ghost var whole := IterEvents(chunks, [], limit);
    assert chunks[0..] == chunks && [] + whole.events == whole.events;
    for i := 0 to |chunks|
      invariant fresh(buffer)
      invariant var rest := IterEvents(chunks[i..], buffer.data, limit);
                whole == Output(events + rest.events, rest.tooLarge)
    {
      assert chunks[i..][1..] == chunks[i + 1..];
      if chunks[i] != [] {
        ghost var d := Drain(buffer.data + chunks[i], limit);
        ghost var rest := IterEvents(chunks[i + 1..], d.rest, limit);
        assert events + (Yielded(d.frames) + rest.events) == (events + Yielded(d.frames)) + rest.events;
        buffer.Extend(chunks[i]);
        var more, failed := buffer.DrainFrames(limit);
        events := events + more;
        if failed.Some? {
          return events, failed;
        }
      }
    }
    if buffer.data != [] {
      if |buffer.data| > limit {
        assert events + [] == events;
        return events, Some(|buffer.data|);
      }
      return events + [buffer.data], None;
    }
    assert events + [] == events;
    return events, None;
  }
}
