/**
 The sliding-window retry budget of app/core/resilience/retry_budget.py.
 */
module RetryBudget {

  predicate Sorted(ts: seq<real>) {
    forall i, j :: 0 <= i <= j < |ts| ==> ts[i] <= ts[j]
  }

  /** The deque after popping everything before the cutoff from the left. */
  function DropOld(ts: seq<real>, cutoff: real): (r: seq<real>)
    ensures |r| <= |ts| && r == ts[|ts| - |r|..]
    ensures forall i :: 0 <= i < |ts| - |r| ==> ts[i] < cutoff
    ensures r != [] ==> r[0] >= cutoff
  {
    if ts != [] && ts[0] < cutoff then DropOld(ts[1..], cutoff) else ts
  }

  function Cutoff(now: real, window: real): real {
    now - window
  }

  function Recent(ts: seq<real>, cutoff: real): nat {
    if ts == [] then 0 else (if ts[0] >= cutoff then 1 else 0) + Recent(ts[1..], cutoff)
  }

  predicate CanAcquire(ts: seq<real>, now: real, limit: int, window: real) {
    |DropOld(ts, Cutoff(now, window))| < limit
  }

  lemma {:induction false} AllRecent(ts: seq<real>, cutoff: real)
    requires Sorted(ts) && (ts != [] ==> ts[0] >= cutoff)
    ensures Recent(ts, cutoff) == |ts|
    decreases |ts|
  {
    if ts != [] {
      assert ts[1..] != [] ==> ts[1..][0] == ts[1];
      AllRecent(ts[1..], cutoff);
    }
  }

  lemma {:induction false} RecentAreKept(ts: seq<real>, cutoff: real)
    requires Sorted(ts)
    ensures Recent(ts, cutoff) == |DropOld(ts, cutoff)|
    decreases |ts|
  {
    if ts != [] && ts[0] < cutoff {
      RecentAreKept(ts[1..], cutoff);
    } else {
      AllRecent(ts, cutoff);
    }
  }

  class Budget {
    const limit: int
    const window: real
    var timestamps: seq<real>

    constructor (limit: int, window: real)
      ensures this.limit == limit && this.window == window && timestamps == []
    {
      this.limit, this.window := limit, window;
      timestamps := [];
    }

    method TryAcquire(now: real) returns (ok: bool)
      modifies this
      ensures ok == CanAcquire(old(timestamps), now, limit, window)
      ensures timestamps == DropOld(old(timestamps), Cutoff(now, window)) + if ok then [now] else []
    {
      var cutoff := Cutoff(now, window);
      hide Cutoff;
      while timestamps != [] && timestamps[0] < cutoff
        invariant DropOld(timestamps, cutoff) == DropOld(old(timestamps), cutoff)
        decreases |timestamps|
      {
        timestamps := timestamps[1..];
      }
      if |timestamps| >= limit {
        return false;
      }
      timestamps := timestamps + [now];
      return true;
    }

    /** Positive exactly when an acquisition at this instant would succeed. */
    method Remaining(now: real) returns (n: int)
      requires Sorted(timestamps)
      ensures n == if Recent(timestamps, Cutoff(now, window)) >= limit then 0
                   else limit - Recent(timestamps, Cutoff(now, window))
      ensures n > 0 <==> CanAcquire(timestamps, now, limit, window)
    {
      var cutoff := Cutoff(now, window);
      hide Cutoff;
      var recent := 0;
      for i := 0 to |timestamps|
        invariant recent + Recent(timestamps[i..], cutoff) == Recent(timestamps, cutoff)
      {
        assert timestamps[i..][1..] == timestamps[i + 1..];
        if timestamps[i] >= cutoff {
          recent := recent + 1;
        }
      }
      RecentAreKept(timestamps, cutoff);
      n := if limit - recent > 0 then limit - recent else 0;
    }
  }

  // ---------- Whole runs ----------

  /** The deque, and the times of all successful acquisitions so far. */
  datatype History = History(timestamps: seq<real>, granted: seq<real>)

  function Acquire(h: History, now: real, limit: int, window: real): History {
    var kept := DropOld(h.timestamps, Cutoff(now, window));
    if CanAcquire(h.timestamps, now, limit, window) then History(kept + [now], h.granted + [now])
    else History(kept, h.granted)
  }

  function RunAll(calls: seq<real>, limit: int, window: real): History {
    if calls == [] then History([], [])
    else Acquire(RunAll(calls[..|calls| - 1], limit, window), calls[|calls| - 1], limit, window)
  }

  /** Any `limit` + 1 successive grants span more than the window. */
  predicate Spaced(granted: seq<real>, limit: nat, window: real) {
    forall i :: 0 <= i && i + limit < |granted| ==> granted[i] < Cutoff(granted[i + limit], window)
  }

  /** The deque holds the latest grants; the earlier ones lie before the cutoff. */
  predicate HoldsLatest(h: History, cutoff: real) {
    && |h.timestamps| <= |h.granted|
    && h.timestamps == h.granted[|h.granted| - |h.timestamps|..]
    && forall i :: 0 <= i < |h.granted| - |h.timestamps| ==> h.granted[i] < cutoff
  }

  predicate AllBy(granted: seq<real>, last: real) {
    Sorted(granted) && forall i :: 0 <= i < |granted| ==> granted[i] <= last
  }

  ghost predicate Inv(h: History, limit: int, window: real, last: real) {
    && HoldsLatest(h, Cutoff(last, window))
    && AllBy(h.granted, last)
    && if limit > 0 then Spaced(h.granted, limit, window) else h.granted == []
  }

  lemma {:induction false} DropKeepsLatest(h: History, earlier: real, cutoff: real)
    requires HoldsLatest(h, earlier) && earlier <= cutoff
    ensures HoldsLatest(h.(timestamps := DropOld(h.timestamps, cutoff)), cutoff)
  {
    var kept := DropOld(h.timestamps, cutoff);
    hide DropOld;
    var n, k, m := |h.granted|, |kept|, |h.timestamps|;
    forall i | 0 <= i < n - k ensures h.granted[i] < cutoff {
      if i >= n - m {
        assert h.granted[i] == h.timestamps[i - (n - m)];
      }
    }
  }

  lemma {:induction false} GrantKeepsSpacing(h: History, limit: nat, window: real, now: real)
    requires limit > 0 && Spaced(h.granted, limit, window)
    requires HoldsLatest(h, Cutoff(now, window)) && |h.timestamps| < limit
    ensures Spaced(h.granted + [now], limit, window)
  {
    hide Cutoff;
    var more := h.granted + [now];
    forall i | 0 <= i && i + limit < |more| ensures more[i] < Cutoff(more[i + limit], window) {
      if i + limit < |h.granted| {
        assert h.granted[i] < Cutoff(h.granted[i + limit], window);
      } else {
        assert h.granted[i] < Cutoff(now, window);
      }
    }
  }

  lemma {:induction false} PushKeepsLatest(h: History, cutoff: real, now: real)
    requires HoldsLatest(h, cutoff)
    ensures HoldsLatest(History(h.timestamps + [now], h.granted + [now]), cutoff)
  {
  }

  lemma {:induction false} LaterStillBy(granted: seq<real>, last: real, now: real)
    requires AllBy(granted, last) && last <= now
    ensures AllBy(granted, now) && AllBy(granted + [now], now)
  {
  }

  lemma {:induction false} AcquireKeepsInv(h: History, limit: int, window: real, last: real, now: real)
    requires Inv(h, limit, window, last) && last <= now
    ensures Inv(Acquire(h, now, limit, window), limit, window, now)
  {
    LaterStillBy(h.granted, last, now);
    hide Cutoff;
    hide DropOld;
    hide HoldsLatest;
    hide AllBy;
    hide Spaced;
    var cutoff := Cutoff(now, window);
    DropKeepsLatest(h, Cutoff(last, window), cutoff);
    var kept := h.(timestamps := DropOld(h.timestamps, cutoff));
    if CanAcquire(h.timestamps, now, limit, window) {
      GrantKeepsSpacing(kept, limit, window, now);
      PushKeepsLatest(kept, cutoff, now);
    }
    hide CanAcquire;
  }

  /** After a run, seen from its last call or any later time. */
  lemma {:induction false} RunKeepsInv(calls: seq<real>, limit: int, window: real) returns (last: real)
    requires Sorted(calls)
    ensures calls != [] ==> last == calls[|calls| - 1]
    ensures Inv(RunAll(calls, limit, window), limit, window, last)
    decreases |calls|
  {
    last := 0.0;
    if calls == [] {
    } else {
      var front := calls[..|calls| - 1];
      last := calls[|calls| - 1];
      var before := RunKeepsInv(front, limit, window);
      if front == [] {
        AcquireKeepsInv(RunAll(front, limit, window), limit, window, last, last);
      } else {
        assert before <= last;
        AcquireKeepsInv(RunAll(front, limit, window), limit, window, before, last);
      }
    }
  }

  /** `x` lies in the closed interval of one window that starts at `t`. */
  predicate InWindow(x: real, t: real, window: real) {
    t <= x <= t + window
  }

  function GrantsIn(granted: seq<real>, t: real, window: real): nat {
    if granted == [] then 0 else (if InWindow(granted[0], t, window) then 1 else 0) + GrantsIn(granted[1..], t, window)
  }

  lemma {:induction false} GrantsInPrefix(granted: seq<real>, t: real, window: real, n: nat)
    requires forall i :: n <= i < |granted| ==> !InWindow(granted[i], t, window)
    ensures GrantsIn(granted, t, window) <= n
    decreases |granted|
  {
    if granted != [] {
      hide InWindow;
      assert forall i :: 0 <= i < |granted[1..]| ==> granted[1..][i] == granted[i + 1];
      GrantsInPrefix(granted[1..], t, window, if n == 0 then 0 else n - 1);
    }
  }

  /** Spaced grants leave at most `limit` of them to any window. */
  lemma {:induction false} SpacedBoundsWindow(granted: seq<real>, limit: nat, window: real, t: real)
    requires limit > 0 && Sorted(granted) && Spaced(granted, limit, window)
    ensures GrantsIn(granted, t, window) <= limit
    decreases |granted|
  {
    if granted != [] {
      if InWindow(granted[0], t, window) {
        forall i | limit <= i < |granted| ensures !InWindow(granted[i], t, window) {
          assert granted[0] < Cutoff(granted[0 + limit], window);
        }
        GrantsInPrefix(granted, t, window, limit);
      } else {
        forall i | 0 <= i && i + limit < |granted[1..]|
          ensures granted[1..][i] < Cutoff(granted[1..][i + limit], window)
        {
          assert granted[i + 1] < Cutoff(granted[(i + 1) + limit], window);
        }
        SpacedBoundsWindow(granted[1..], limit, window, t);
      }
    }
  }

  /**
   With a clock that never goes back, every closed interval as long as the window contains at
   most `limit` successful acquisitions, however the calls are spread.
   */
  lemma {:induction false} WindowNeverExceedsLimit(calls: seq<real>, limit: int, window: real, t: real)
    requires Sorted(calls)
    ensures GrantsIn(RunAll(calls, limit, window).granted, t, window) <= if limit > 0 then limit else 0
  {
    var last := RunKeepsInv(calls, limit, window);
    if limit > 0 {
      SpacedBoundsWindow(RunAll(calls, limit, window).granted, limit, window, t);
    }
  }

  lemma {:induction false} RecentSuffix(ts: seq<real>, cutoff: real, n: nat)
    requires n <= |ts| && forall i :: 0 <= i < n ==> ts[i] < cutoff
    ensures Recent(ts, cutoff) == Recent(ts[n..], cutoff)
    decreases |ts|
  {
    if n > 0 {
      assert forall i :: 0 <= i < n - 1 ==> ts[1..][i] == ts[i + 1];
      assert ts[1..][n - 1..] == ts[n..];
      RecentSuffix(ts[1..], cutoff, n - 1);
    }
  }

  lemma {:induction false} RecentAreInWindow(granted: seq<real>, now: real, window: real)
    requires AllBy(granted, now)
    ensures GrantsIn(granted, now - window, window) == Recent(granted, now - window)
    decreases |granted|
  {
    if granted != [] {
      assert forall i :: 0 <= i < |granted[1..]| ==> granted[1..][i] == granted[i + 1];
      RecentAreInWindow(granted[1..], now, window);
    }
  }

  lemma {:induction false} CountsAgree(granted: seq<real>, gone: nat, now: real, window: real)
    requires AllBy(granted, now) && gone <= |granted|
    requires forall i :: 0 <= i < gone ==> granted[i] < Cutoff(now, window)
    ensures GrantsIn(granted, now - window, window) == |DropOld(granted[gone..], Cutoff(now, window))|
  {
    RecentAreInWindow(granted, now, window);
    assert now - window == Cutoff(now, window);
    hide *;
    RecentSuffix(granted, Cutoff(now, window), gone);
    SortedSuffix(granted, gone);
    RecentAreKept(granted[gone..], Cutoff(now, window));
  }

  lemma {:induction false} LaterCutoff(h: History, window: real, last: real, now: real)
    requires HoldsLatest(h, Cutoff(last, window)) && last <= now
    ensures HoldsLatest(h, Cutoff(now, window))
  {
  }

  lemma {:induction false} AcquiresFromHistory(h: History, limit: int, window: real, last: real, now: real)
    requires Inv(h, limit, window, last) && last <= now
    ensures CanAcquire(h.timestamps, now, limit, window) <==> GrantsIn(h.granted, now - window, window) < limit
  {
    LaterStillBy(h.granted, last, now);
    LaterCutoff(h, window, last, now);
    hide Inv;
    hide AllBy;
    hide GrantsIn;
    hide DropOld;
    hide Cutoff;
    CountsAgree(h.granted, |h.granted| - |h.timestamps|, now, window);
  }

  lemma {:induction false} SortedSuffix(ts: seq<real>, n: nat)
    requires n <= |ts| && Sorted(ts)
    ensures Sorted(ts[n..])
  {
  }

  /** With a clock that never goes back, a call succeeds exactly when fewer than `limit` did in the last window. */
  lemma {:induction false} AcquiresExactly(calls: seq<real>, limit: int, window: real, now: real)
    requires Sorted(calls) && (calls != [] ==> calls[|calls| - 1] <= now)
    ensures var h := RunAll(calls, limit, window);
            CanAcquire(h.timestamps, now, limit, window) <==> GrantsIn(h.granted, now - window, window) < limit
  {
    var last := RunKeepsInv(calls, limit, window);
    if calls != [] {
      hide *;
      AcquiresFromHistory(RunAll(calls, limit, window), limit, window, last, now);
    }
  }

  /** After any run, the remaining budget is positive exactly when an acquisition would succeed. */
  lemma {:induction false} RemainingPredictsAcquire(calls: seq<real>, limit: int, window: real, now: real)
    requires Sorted(calls)
    ensures var ts := RunAll(calls, limit, window).timestamps;
            limit - Recent(ts, Cutoff(now, window)) > 0 <==> CanAcquire(ts, now, limit, window)
  {
    var last := RunKeepsInv(calls, limit, window);
    hide Cutoff;
    RecentAreKept(RunAll(calls, limit, window).timestamps, Cutoff(now, window));
  }
}
