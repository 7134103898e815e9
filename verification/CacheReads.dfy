/**
 What a read of a version-guarded cache returns after any history of fills, invalidations and
 clears, stated on the operations alone, and what that says of a replica in the invalidation protocol.
 */
module CacheReads {
  import opened Options
  import opened VersionedCache
  import opened CacheInvalidation

  datatype Operation<T> =
    | Fill(key: Key, data: T, ifVersion: Option<nat>, now: real)
    | Drop(key: Key)
    | Clear

  function Apply<T>(c: Cache<T>, op: Operation<T>): Cache<T> {
    match op
    case Fill(key, data, ifVersion, now) =>
      var r := Put(c, key, data, ifVersion, now);
      if r.Stored? then r.cache else c
    case Drop(key) => Dropped(c, key)
    case Clear => Cleared(c)
  }

  /** The cache after the operations. */
  function After<T>(ops: seq<Operation<T>>, ttl: real, limit: Option<int>): Cache<T> {
    if ops == [] then Empty(ttl, limit) else Apply(After(ops[..|ops| - 1], ttl, limit), ops[|ops| - 1])
  }

  // ---------- What the operations say ----------

  /** How often the cache was invalidated: what a version counts. */
  function Invalidations<T>(ops: seq<Operation<T>>): nat {
    if ops == [] then 0 else Invalidations(ops[..|ops| - 1]) + if ops[|ops| - 1].Fill? then 0 else 1
  }

  predicate HoldsAnything(limit: Option<int>) {
    limit.Some? ==> limit.value > 0
  }

  /** Operation `k` is a fill of the key that no invalidation has overtaken. */
  predicate Stores<T>(ops: seq<Operation<T>>, limit: Option<int>, k: nat, key: Key) {
    && k < |ops| && ops[k].Fill? && ops[k].key == key && HoldsAnything(limit)
    && (ops[k].ifVersion.Some? ==> ops[k].ifVersion.value == Invalidations(ops[..k]))
  }

  /** Operation `j` makes room for another key by giving up this one. */
  ghost predicate Evicts<T>(ops: seq<Operation<T>>, ttl: real, limit: Option<int>, j: nat, key: Key) {
    && j < |ops| && ops[j].Fill?
    && key in After(ops[..j], ttl, limit).entries && key !in After(ops[..j + 1], ttl, limit).entries
  }

  /** What was stored under the key before operation `j` is gone after it. */
  ghost predicate Ends<T>(ops: seq<Operation<T>>, ttl: real, limit: Option<int>, j: nat, key: Key) {
    && j < |ops|
    && (ops[j] == Clear || ops[j] == Drop(key) || Stores(ops, limit, j, key) || Evicts(ops, ttl, limit, j, key))
  }

  /** Operation `k` stored what the key holds now. */
  ghost predicate Current<T>(ops: seq<Operation<T>>, ttl: real, limit: Option<int>, k: nat, key: Key) {
    Stores(ops, limit, k, key) && forall j: nat :: k < j < |ops| ==> !Ends(ops, ttl, limit, j, key)
  }

  /** Operation `k` stored `d`, less than the time to live before `now`, and nothing has ended it since. */
  ghost predicate Serves<T>(
    ops: seq<Operation<T>>, ttl: real, limit: Option<int>, k: nat, key: Key, d: T, now: real)
  {
    Current(ops, ttl, limit, k, key) && ops[k].data == d && now < ops[k].now + ttl
  }

  // ---------- One operation ----------

  /** What every history keeps. */
  ghost predicate Kept<T>(ops: seq<Operation<T>>, ttl: real, limit: Option<int>, c: Cache<T>) {
    && c.ttl == ttl && c.limit == limit && c.version == Invalidations(ops) && WellFormed(c)
    && if HoldsAnything(limit) then WithinLimit(c) else c.entries == map[] && c.order == []
  }

  lemma {:induction false} HistoryKeeps<T>(ops: seq<Operation<T>>, ttl: real, limit: Option<int>)
    ensures Kept(ops, ttl, limit, After(ops, ttl, limit))
    decreases |ops|
  {
    if ops == [] {
      assert Members([]) == {};
    } else {
      var n := |ops| - 1;
      HistoryKeeps(ops[..n], ttl, limit);
      OperationKeeps(After(ops[..n], ttl, limit), ops[n], ops, ttl, limit);
    }
  }

  lemma {:induction false} OperationKeeps<T>(
    c: Cache<T>, op: Operation<T>, ops: seq<Operation<T>>, ttl: real, limit: Option<int>)
    requires ops != [] && op == ops[|ops| - 1] && Kept(ops[..|ops| - 1], ttl, limit, c)
    ensures Kept(ops, ttl, limit, Apply(c, op))
  {
    match op
    case Fill(key, data, ifVersion, now) =>
      if HoldsAnything(limit) {
        PutKeepsLimit(c, key, data, ifVersion, now);
        hide Put;
        hide NoRepeats;
      }
    case Drop(key) =>
      RemoveKeepsWellFormed(c, key);
      hide NoRepeats;
    case Clear =>
      assert Members([]) == {};
  }

  /** A fill is stored exactly when the cache holds anything at all and its version is still current. */
  lemma {:induction false} StoredExactly<T>(c: Cache<T>, ops: seq<Operation<T>>, ttl: real, limit: Option<int>)
    requires ops != [] && ops[|ops| - 1].Fill? && Kept(ops[..|ops| - 1], ttl, limit, c)
    ensures var n, op := |ops| - 1, ops[|ops| - 1];
            var r := Put(c, op.key, op.data, op.ifVersion, op.now);
            && (r.Stored? <==> Stores(ops, limit, n, op.key))
            && (r.Stored? ==> op.key in r.cache.entries && r.cache.entries[op.key] == Entry(op.data, op.now + ttl)
                              && OnlyChangedAt(c, r.cache, op.key))
  {
    var op := ops[|ops| - 1];
    if HoldsAnything(limit) {
      PutKeepsLimit(c, op.key, op.data, op.ifVersion, op.now);
      hide NoRepeats;
      hide Members;
    }
  }

  /** What one operation does to what a key holds. */
  lemma {:induction false} OperationAtKey<T>(ops: seq<Operation<T>>, ttl: real, limit: Option<int>, key: Key)
    requires ops != []
    ensures var n := |ops| - 1;
            var before, after := After(ops[..n], ttl, limit), After(ops, ttl, limit);
            && (Stores(ops, limit, n, key) ==>
                  key in after.entries && after.entries[key] == Entry(ops[n].data, ops[n].now + ttl))
            && (!Ends(ops, ttl, limit, n, key) ==>
                  && (key in after.entries <==> key in before.entries)
                  && (key in after.entries ==> after.entries[key] == before.entries[key]))
            && (Ends(ops, ttl, limit, n, key) && !Stores(ops, limit, n, key) ==> key !in after.entries)
  {
    var n := |ops| - 1;
    var before := After(ops[..n], ttl, limit);
    assert ops[..n + 1] == ops;
    HistoryKeeps(ops[..n], ttl, limit);
    if ops[n].Fill? {
      StoredExactly(before, ops, ttl, limit);
      hide Put;
    }
    hide Kept;
    hide Without;
  }

  // ---------- The history of a key ----------

  lemma {:induction false} PrefixAgrees<T>(
    ops: seq<Operation<T>>, ttl: real, limit: Option<int>, n: nat, j: nat, key: Key)
    requires j < n <= |ops|
    ensures Stores(ops[..n], limit, j, key) <==> Stores(ops, limit, j, key)
    ensures Ends(ops[..n], ttl, limit, j, key) <==> Ends(ops, ttl, limit, j, key)
  {
    assert ops[..n][..j] == ops[..j] && ops[..n][..j + 1] == ops[..j + 1];
  }

  lemma {:induction false} CurrentStep<T>(ops: seq<Operation<T>>, ttl: real, limit: Option<int>, k: nat, key: Key)
    requires k < |ops|
    ensures var n := |ops| - 1;
            Current(ops, ttl, limit, k, key) <==>
            if k == n then Stores(ops, limit, n, key)
            else Current(ops[..n], ttl, limit, k, key) && !Ends(ops, ttl, limit, n, key)
  {
    var n := |ops| - 1;
    forall j: nat | j < n
      ensures Stores(ops[..n], limit, j, key) <==> Stores(ops, limit, j, key)
      ensures Ends(ops[..n], ttl, limit, j, key) <==> Ends(ops, ttl, limit, j, key)
    {
      PrefixAgrees(ops, ttl, limit, n, j, key);
    }
    hide Stores;
    hide Ends;
  }

  /** A key is held exactly when some operation stored what it holds now, and it holds just that. */
  lemma {:induction false} HeldExactly<T>(ops: seq<Operation<T>>, ttl: real, limit: Option<int>, key: Key)
    ensures var c := After(ops, ttl, limit);
            && (key in c.entries ==> exists k: nat :: Current(ops, ttl, limit, k, key))
            && forall k: nat :: Current(ops, ttl, limit, k, key) ==>
                 k < |ops| && ops[k].Fill? && key in c.entries && c.entries[key] == Entry(ops[k].data, ops[k].now + ttl)
    decreases |ops|
  {
    if ops != [] {
      var n := |ops| - 1;
      var before, after := After(ops[..n], ttl, limit), After(ops, ttl, limit);
      HeldExactly(ops[..n], ttl, limit, key);
      OperationAtKey(ops, ttl, limit, key);
      forall k: nat | k < |ops|
        ensures Current(ops, ttl, limit, k, key) <==>
                if k == n then Stores(ops, limit, n, key)
                else Current(ops[..n], ttl, limit, k, key) && !Ends(ops, ttl, limit, n, key)
      {
        CurrentStep(ops, ttl, limit, k, key);
      }
      hide Ends;
      hide After;
      if key in after.entries {
        if Stores(ops, limit, n, key) {
          assert Current(ops, ttl, limit, n, key);
        } else {
          var k: nat :| Current(ops[..n], ttl, limit, k, key);
          assert Current(ops, ttl, limit, k, key);
        }
      }
    }
  }

  /**
   A read returns `d` exactly when the last store of the key was of `d`, less than the time to live
   ago, and no drop, clear or eviction of the key came since.
   */
  lemma {:induction false} ReadExactly<T(!new)>(
    ops: seq<Operation<T>>, ttl: real, limit: Option<int>, key: Key, d: T, now: real)
    ensures Lookup(After(ops, ttl, limit), key, now) == Some(d) <==>
            exists k: nat :: Serves(ops, ttl, limit, k, key, d, now)
  {
    HeldExactly(ops, ttl, limit, key);
    hide After;
    hide Ends;
    var c := After(ops, ttl, limit);
    if Lookup(c, key, now) == Some(d) {
      var k: nat :| Current(ops, ttl, limit, k, key);
      assert Serves(ops, ttl, limit, k, key, d, now);
    }
  }

  /** Room is made only in a full cache, and by giving up a key that was stored no later than any other. */
  lemma {:induction false} EvictionOnOperations<T>(
    ops: seq<Operation<T>>, ttl: real, limit: Option<int>, j: nat, key: Key, k: nat, other: Key, o: nat)
    requires Evicts(ops, ttl, limit, j, key)
    requires Current(ops[..j], ttl, limit, k, key) && Current(ops[..j], ttl, limit, o, other)
    ensures ops[k].now <= ops[o].now
    ensures limit.Some? && |After(ops[..j], ttl, limit).entries| == limit.value
  {
    var c := After(ops[..j], ttl, limit);
    HistoryKeeps(ops[..j], ttl, limit);
    HeldExactly(ops[..j], ttl, limit, key);
    HeldExactly(ops[..j], ttl, limit, other);
    assert ops[..j + 1][..j] == ops[..j];
    assert c.order == [] ==> Members(c.order) == {};
    var op := ops[j];
    assert After(ops[..j + 1], ttl, limit) == Apply(c, op);
    hide After;
    EvictionTakesTheOldest(c, op.key, op.data, op.ifVersion, op.now, key);
    hide Put;
  }

  // ---------- A replica's reads ----------

  /** What a step does to the cache of replica `r`. */
  function OperationOf(s: State, step: Step, r: nat): seq<Operation<Fetched>> {
    if !OwnStep(step, r) || r !in s.replicas then []
    else
      var rep := s.replicas[r];
      match step
      case LocalInvalidate(_, key) => [Drop(key)]
      case LocalClear(_) => [Clear]
      case PollApply(_) =>
        if rep.poll.Some? && PollRow(rep.known, rep.initialized, rep.poll.value.row).1 then [Clear] else []
      case FillCache(_, id, now) =>
        if id in rep.readers && rep.readers[id].fetched.Some?
        then [Fill(rep.readers[id].key, rep.readers[id].fetched.value, Some(rep.readers[id].captured), now)] else []
      case _ => []
  }

  /** The operations of the first `m` steps on the cache of replica `r`. */
  function OperationsOf(states: seq<State>, steps: seq<Step>, r: nat, m: nat): seq<Operation<Fetched>>
    requires m <= |steps| && m <= |states|
  {
    if m == 0 then []
    else OperationsOf(states, steps, r, m - 1) + OperationOf(states[m - 1], steps[m - 1], r)
  }

  lemma {:induction false} StepOperates(s: State, step: Step, r: nat)
    requires |s.hist| > 0 && r in s.replicas
    ensures var ops, c := OperationOf(s, step, r), s.replicas[r].cache;
            && |ops| <= 1
            && Next(s, step).replicas[r].cache == if ops == [] then c else Apply(c, ops[0])
  {
    hide Put;
    hide Dropped;
    hide PollRow;
  }

  lemma {:induction false} CacheFollowsOperations(states: seq<State>, steps: seq<Step>, r: nat, m: nat)
    requires IsRun(states, steps) && r in states[0].replicas && m < |states|
    ensures r in states[m].replicas
    ensures var c := states[0].replicas[r].cache;
            states[m].replicas[r].cache == After(OperationsOf(states, steps, r, m), c.ttl, c.limit)
    decreases m
  {
    var c := states[0].replicas[r].cache;
    if m == 0 {
      assert FreshReplica(states[0].replicas[r]);
    } else {
      CacheFollowsOperations(states, steps, r, m - 1);
      var ops, more := OperationsOf(states, steps, r, m - 1), OperationOf(states[m - 1], steps[m - 1], r);
      StepOperates(states[m - 1], steps[m - 1], r);
      assert states[m] == Next(states[m - 1], steps[m - 1]);
      hide Next;
      hide OperationOf;
      hide Apply;
      if more == [] {
        assert ops + more == ops;
      } else {
        assert ops + more == ops + [more[0]] && (ops + more)[..|ops|] == ops;
      }
    }
  }

  /** Step `k` filled replica `r`'s cache with what its read had fetched for the key. */
  predicate FilledAt(s: State, step: Step, r: nat, key: Key, f: Fetched, now: real) {
    && step.FillCache? && step.r == r && step.now == now
    && r in s.replicas && step.id in s.replicas[r].readers
    && s.replicas[r].readers[step.id].key == key && s.replicas[r].readers[step.id].fetched == Some(f)
  }

  lemma {:induction false} FillComesFromStep(
    states: seq<State>, steps: seq<Step>, r: nat, m: nat, i: nat) returns (k: nat)
    requires m <= |steps| && m <= |states|
    requires i < |OperationsOf(states, steps, r, m)| && OperationsOf(states, steps, r, m)[i].Fill?
    ensures var op := OperationsOf(states, steps, r, m)[i];
            k < m && FilledAt(states[k], steps[k], r, op.key, op.data, op.now)
    decreases m
  {
    if i < |OperationsOf(states, steps, r, m - 1)| {
      k := FillComesFromStep(states, steps, r, m - 1, i);
    } else {
      k := m - 1;
    }
  }

  /**
   In every run, whether or not any bump arrives: what a replica serves was fetched from the
   database, stored by one of its fills less than the time to live ago, and is the last thing
   stored for the key, not dropped, cleared or evicted since; and whatever is so is served.
   */
  lemma {:induction false} ServedExactly(
    states: seq<State>, steps: seq<Step>, r: nat, m: nat, key: Key, f: Fetched, now: real)
    requires IsRun(states, steps) && r in states[0].replicas && m < |states|
    ensures r in states[m].replicas
    ensures var c := states[0].replicas[r].cache;
            Lookup(states[m].replicas[r].cache, key, now) == Some(f) <==>
            exists k: nat :: Serves(OperationsOf(states, steps, r, m), c.ttl, c.limit, k, key, f, now)
    ensures Lookup(states[m].replicas[r].cache, key, now) == Some(f) ==>
              && Honest(states[m], key, f)
              && exists k, t :: 0 <= k < m && FilledAt(states[k], steps[k], r, key, f, t)
                                && now < t + states[0].replicas[r].cache.ttl
  {
    var c := states[0].replicas[r].cache;
    var ops := OperationsOf(states, steps, r, m);
    CacheFollowsOperations(states, steps, r, m);
    ReadExactly(ops, c.ttl, c.limit, key, f, now);
    if Lookup(states[m].replicas[r].cache, key, now) == Some(f) {
      var i: nat :| Serves(ops, c.ttl, c.limit, i, key, f, now);
      var k := FillComesFromStep(states, steps, r, m, i);
      assert FilledAt(states[k], steps[k], r, key, f, ops[i].now);
      RunKeepsInv(states, steps, m);
      assert ReplicaOk(states[m], states[m].replicas[r]);
    }
  }
}
