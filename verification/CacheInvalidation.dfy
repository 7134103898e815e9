/**
 Replicated cache invalidation: `CacheInvalidationPoller` of app/core/cache/invalidation.py,
 the version-guarded caches, and the capture-version / read / guarded-fill reader of
 app/core/auth/dependencies.py (and of app/core/middleware/api_firewall.py).

 The protocol is a state machine over one invalidation namespace: each SQL statement and each
 stretch of code without a suspension point is one step, and the number of steps taken so far
 is the clock. Replicas, readers, writers and pollers interleave freely.
 */
module CacheInvalidation {
  import opened Options
  import opened VersionedCache

  // ---------- The poller ----------

  /** One row of a poll: what becomes known, and whether the namespace's callbacks run. */
  function PollRow(known: Option<nat>, initialized: bool, row: Option<nat>): (Option<nat>, bool) {
    match row
    case None => (known, false)
    case Some(v) => (row, if known.Some? then v != known.value else initialized && v > 0)
  }

  function Find(rows: map<string, nat>, namespace: string): Option<nat> {
    if namespace in rows then Some(rows[namespace]) else None
  }

  /** The table of invalidation versions. */
  class InvalidationTable {
    var versions: map<string, nat>

    constructor ()
      ensures versions == map[]
    {
      versions := map[];
    }

    /** Insert with version 1, or increment on conflict. */
    method Bump(namespace: string)
      modifies this
      ensures versions == old(versions)[namespace := if namespace in old(versions) then old(versions)[namespace] + 1 else 1]
    {
      versions := versions[namespace := if namespace in versions then versions[namespace] + 1 else 1];
    }
  }

  function RowsMap(rows: seq<(string, nat)>): map<string, nat> {
    if rows == [] then map[] else RowsMap(rows[..|rows| - 1])[rows[|rows| - 1].0 := rows[|rows| - 1].1]
  }

  lemma {:induction false} RowsMapStep(rows: seq<(string, nat)>, i: nat)
    requires i <= |rows|
    ensures RowsMap(rows[..0]) == map[]
    ensures i < |rows| ==> RowsMap(rows[..i + 1]) == RowsMap(rows[..i])[rows[i].0 := rows[i].1]
  {
    assert i < |rows| ==> rows[..i + 1][..i] == rows[..i];
  }

  predicate UniqueNamespaces(rows: seq<(string, nat)>) {
    forall i, j :: 0 <= i < j < |rows| ==> rows[i].0 != rows[j].0
  }

  lemma {:induction false} RowsMapKeys(rows: seq<(string, nat)>)
    ensures forall n :: n in RowsMap(rows) <==> exists i :: 0 <= i < |rows| && rows[i].0 == n
    decreases |rows|
  {
    if rows != [] {
      RowsMapKeys(rows[..|rows| - 1]);
    }
  }

  class CacheInvalidationPoller {
    var known: map<string, nat>
    var initialized: bool

    constructor ()
      ensures known == map[] && !initialized
    {
      known, initialized := map[], false;
    }

    /** Applies the rows of a successful select; `fired` lists the namespaces whose callbacks run. */
    method ApplyRows(rows: seq<(string, nat)>) returns (fired: seq<string>)
      requires UniqueNamespaces(rows)
      modifies this
      ensures initialized
      ensures forall n :: Find(known, n) == PollRow(Find(old(known), n), old(initialized), Find(RowsMap(rows), n)).0
      ensures forall n :: n in fired <==> PollRow(Find(old(known), n), old(initialized), Find(RowsMap(rows), n)).1
    {
      hide RowsMap;
      RowsMapStep(rows, 0);
      fired := [];
      for i := 0 to |rows|
        invariant initialized == old(initialized)
        invariant forall n ::
          Find(known, n) == PollRow(Find(old(known), n), old(initialized), Find(RowsMap(rows[..i]), n)).0
        invariant forall n ::
          n in fired <==> PollRow(Find(old(known), n), old(initialized), Find(RowsMap(rows[..i]), n)).1
      {
        var (namespace, version) := rows[i];
        RowsMapStep(rows, i);
        RowsMapKeys(rows[..i]);
        assert namespace !in RowsMap(rows[..i]);
        assert Find(known, namespace) == Find(old(known), namespace);
        var previous := Find(known, namespace);
        if previous.Some? && version != previous.value {
          fired := fired + [namespace];
        } else if previous.None? && initialized && version > 0 {
          fired := fired + [namespace];
        }
        known := known[namespace := version];
      }
      assert rows[..|rows|] == rows;
      initialized := true;
    }
  }

  // ---------- The protocol ----------

  /** What the database answers for a key. */
  type Db = Key -> Option<string>

  /** A value together with the time at which it was read from the database. */
  datatype Fetched = Fetched(value: string, readAt: nat)

  /** A request that missed the cache: captured version, then perhaps the fetched value. */
  datatype Reader = Reader(key: Key, captured: nat, capturedAt: nat, fetched: Option<Fetched>)

  /** A poll whose select has run and whose rows are not applied yet. */
  datatype Poll = Poll(row: Option<nat>, readAt: nat)

  /** `initAt`, `clearedAt`, `changedAt` and `droppedAt` record when things happened; no step depends on them. */
  datatype Replica = Replica(
    cache: Cache<Fetched>, readers: map<nat, Reader>,
    known: Option<nat>, initialized: bool, poll: Option<Poll>,
    initAt: nat, clearedAt: nat, changedAt: nat, droppedAt: map<Key, nat>)

  /**
   `hist[t]` is the database at time `t`, `bumps` the times of the invalidation bumps and
   `base` the version stored before the run.
   */
  datatype State = State(hist: seq<Db>, base: nat, bumps: seq<nat>, replicas: map<nat, Replica>)

  datatype Step =
    | Write(db: Db)
    | Bump
    | PollRead(r: nat)
    | PollApply(r: nat)
    | PollFail(r: nat)
    | LocalInvalidate(r: nat, key: Key)
    | LocalClear(r: nat)
    | BeginRead(r: nat, id: nat, key: Key)
    | FetchRow(r: nat, id: nat)
    | FillCache(r: nat, id: nat, now: real)

  function Now(s: State): int {
    |s.hist| - 1
  }

  function Row(s: State): Option<nat> {
    if s.base + |s.bumps| == 0 then None else Some(s.base + |s.bumps|)
  }

  predicate Enabled(s: State, step: Step) {
    match step
    case Write(_) => true
    case Bump => true
    case PollRead(r) => r in s.replicas && s.replicas[r].poll.None?
    case PollApply(r) => r in s.replicas && s.replicas[r].poll.Some?
    case PollFail(r) => r in s.replicas && s.replicas[r].poll.Some?
    case LocalInvalidate(r, _) => r in s.replicas
    case LocalClear(r) => r in s.replicas
    // Any request may go to the database: a miss, or a hit that it invalidated as expired.
    case BeginRead(r, id, _) => r in s.replicas && id !in s.replicas[r].readers
    case FetchRow(r, id) =>
      r in s.replicas && id in s.replicas[r].readers && s.replicas[r].readers[id].fetched.None?
    case FillCache(r, id, _) =>
      r in s.replicas && id in s.replicas[r].readers && s.replicas[r].readers[id].fetched.Some?
  }

  function ClearReplica(rep: Replica, t: nat): Replica {
    rep.(cache := Cleared(rep.cache), clearedAt := t + 1, changedAt := t + 1)
  }

  function InvalidateReplica(rep: Replica, key: Key, t: nat): Replica {
    rep.(cache := Dropped(rep.cache, key), changedAt := t + 1, droppedAt := rep.droppedAt[key := t + 1])
  }

  function ApplyPoll(rep: Replica, t: nat): Replica
    requires rep.poll.Some?
  {
    var (known, fires) := PollRow(rep.known, rep.initialized, rep.poll.value.row);
    var rep1 := if fires then ClearReplica(rep, t) else rep;
    rep1.(known := known, initialized := true, poll := None,
          initAt := if rep.initialized then rep.initAt else t + 1)
  }

  /** A replica's own step at time `t`. */
  function NextReplica(s: State, rep: Replica, step: Step): Replica
    requires |s.hist| > 0
  {
    var t := Now(s);
    match step
    case PollRead(_) => rep.(poll := Some(Poll(Row(s), t)))
    case PollApply(_) => if rep.poll.Some? then ApplyPoll(rep, t) else rep
    case PollFail(_) => rep.(poll := None)
    case LocalInvalidate(_, key) => InvalidateReplica(rep, key, t)
    case LocalClear(_) => ClearReplica(rep, t)
    case BeginRead(_, id, key) =>
      rep.(readers := rep.readers[id := Reader(key, rep.cache.version, t, None)])
    case FetchRow(_, id) =>
      if id !in rep.readers then rep
      else
        var rd := rep.readers[id];
        (match s.hist[t](rd.key)
         case None => rep.(readers := rep.readers - {id})
         case Some(v) => rep.(readers := rep.readers[id := rd.(fetched := Some(Fetched(v, t)))]))
    case FillCache(_, id, now) =>
      if id !in rep.readers || rep.readers[id].fetched.None? then rep
      else
        var rd := rep.readers[id];
        var outcome := Put(rep.cache, rd.key, rd.fetched.value, Some(rd.captured), now);
        rep.(cache := if outcome.Stored? then outcome.cache else rep.cache, readers := rep.readers - {id})
    case _ => rep
  }

  predicate OwnStep(step: Step, r: nat) {
    !step.Write? && !step.Bump? && step.r == r
  }

  function Next(s: State, step: Step): State
    requires |s.hist| > 0
  {
    State(
      s.hist + [if step.Write? then step.db else s.hist[Now(s)]],
      s.base,
      if step.Bump? then s.bumps + [Now(s)] else s.bumps,
      map r | r in s.replicas :: if OwnStep(step, r) then NextReplica(s, s.replicas[r], step) else s.replicas[r])
  }

  predicate FreshReplica(rep: Replica) {
    && rep.cache == Empty(rep.cache.ttl, rep.cache.limit)
    && (rep.cache.limit.Some? ==> rep.cache.limit.value > 0)
    && rep.readers == map[] && rep.known == None && !rep.initialized && rep.poll == None
    && rep.initAt == 0 && rep.clearedAt == 0 && rep.changedAt == 0 && rep.droppedAt == map[]
  }

  predicate Init(s: State) {
    |s.hist| == 1 && s.bumps == [] && forall r :: r in s.replicas ==> FreshReplica(s.replicas[r])
  }

  ghost predicate IsRun(states: seq<State>, steps: seq<Step>) {
    && |states| == |steps| + 1
    && Init(states[0])
    && (forall i :: 0 <= i < |states| ==> |states[i].hist| > 0)
    && forall i :: 0 <= i < |steps| ==> Enabled(states[i], steps[i]) && states[i + 1] == Next(states[i], steps[i])
  }

  // ---------- The invariant ----------

  function DroppedAt(rep: Replica, key: Key): nat {
    if key in rep.droppedAt then rep.droppedAt[key] else 0
  }

  /** The value was read from the database at its stamp. */
  predicate Honest(s: State, key: Key, f: Fetched) {
    f.readAt < Now(s) && s.hist[f.readAt](key) == Some(f.value)
  }

  ghost predicate CacheOk(s: State, rep: Replica) {
    && WellFormed(rep.cache) && WithinLimit(rep.cache) && (rep.cache.limit.Some? ==> rep.cache.limit.value > 0)
    && forall k :: k in rep.cache.entries ==>
         && Honest(s, k, rep.cache.entries[k].data)
         && rep.clearedAt <= rep.cache.entries[k].data.readAt
         && DroppedAt(rep, k) <= rep.cache.entries[k].data.readAt
  }

  predicate ReaderOk(s: State, rep: Replica, rd: Reader) {
    && rd.captured <= rep.cache.version
    && rd.capturedAt < Now(s)
    && (rd.captured == rep.cache.version ==> rep.changedAt <= rd.capturedAt)
    && (rd.fetched.Some? ==> rd.capturedAt < rd.fetched.value.readAt && Honest(s, rd.key, rd.fetched.value))
  }

  ghost predicate StampsOk(s: State, rep: Replica) {
    && rep.clearedAt <= rep.changedAt <= Now(s)
    && (forall k :: DroppedAt(rep, k) <= rep.changedAt)
    && rep.initAt <= Now(s)
  }

  /** A version the replica knows, bumped since its poller was initialised, was followed by a clear. */
  predicate KnownIsCleared(s: State, rep: Replica) {
    forall j :: 0 <= j < |s.bumps| && rep.known.Some? && s.base + j < rep.known.value && rep.initAt <= s.bumps[j] ==>
      s.bumps[j] < rep.clearedAt
  }

  /** The row of a poll counts exactly the bumps before its read. */
  predicate PollOk(s: State, rep: Replica) {
    rep.poll.Some? ==>
      var p := rep.poll.value;
      && p.readAt < Now(s)
      && (p.row.None? ==> s.base == 0)
      && (rep.known.Some? ==> p.row.Some? && rep.known.value <= p.row.value)
      && forall j :: 0 <= j < |s.bumps| ==>
           (s.bumps[j] < p.readAt <==> p.row.Some? && s.base + j < p.row.value)
  }

  predicate PollerOk(s: State, rep: Replica) {
    && (rep.known.Some? ==> rep.initialized && 0 < rep.known.value <= s.base + |s.bumps|)
    && KnownIsCleared(s, rep)
    && PollOk(s, rep)
    && (rep.poll.Some? && rep.poll.value.row.Some? ==> 0 < rep.poll.value.row.value <= s.base + |s.bumps|)
  }

  ghost predicate ReplicaOk(s: State, rep: Replica) {
    && CacheOk(s, rep)
    && (forall id :: id in rep.readers ==> ReaderOk(s, rep, rep.readers[id]))
    && StampsOk(s, rep)
    && PollerOk(s, rep)
  }

  predicate BumpsOk(s: State) {
    forall j :: 0 <= j < |s.bumps| ==> s.bumps[j] < Now(s)
  }

  ghost predicate Inv(s: State) {
    && |s.hist| > 0
    && BumpsOk(s)
    && forall r :: r in s.replicas ==> ReplicaOk(s, s.replicas[r])
  }

  // ---------- The main results ----------

  /**
   Once a replica, whose poller was initialised before a bump, completes a poll that read the
   bump, everything it holds or can still store was read after the bump, hence after any write
   that preceded it.
   */
  lemma {:induction false} PolledReplicaHoldsNothingOlder(
    states: seq<State>, steps: seq<Step>, r: nat, written: nat, bumped: nat, applied: nat, m: nat, key: Key, f: Fetched)
    requires PolledSince(states, steps, r, bumped, applied, m)
    requires written < bumped && steps[written].Write?
    requires Usable(states[m].replicas[r], key, f)
    ensures Now(states[m]) == m && written < bumped < f.readAt < m
    ensures states[m].hist[f.readAt](key) == Some(f.value)
  {
    ClearedAfterPoll(states, steps, r, bumped, applied, m);
    hide ReplicaOk;
    hide PolledSince;
    UsableIsHonestAndFresh(states[m], states[m].replicas[r], key, f);
  }

  /**
   On one replica, in every interleaving: when every change of a key's row has been followed by
   an invalidation that reaches the key, a cached entry for it equals the row, and so does any
   value an in-flight read can still store.
   */
  lemma {:induction false} InvalidatedKeyIsNeverStale(
    states: seq<State>, steps: seq<Step>, r: nat, m: nat, key: Key, f: Fetched)
    requires IsRun(states, steps) && r in states[0].replicas && m < |states|
    requires forall w :: 0 <= w < m && Changes(states[w], steps[w], key) ==>
               exists u :: w < u < m && Drops(states[u], steps[u], r, key)
    requires r in states[m].replicas && Usable(states[m].replicas[r], key, f)
    ensures Now(states[m]) == m && states[m].hist[m](key) == Some(f.value)
  {
    RunKeepsInv(states, steps, m);
    assert ReplicaOk(states[m], states[m].replicas[r]);
    UsableIsHonestAndFresh(states[m], states[m].replicas[r], key, f);
    forall w | f.readAt <= w < m ensures !Changes(states[w], steps[w], key) {
      if Changes(states[w], steps[w], key) {
        var u :| w < u < m && Drops(states[u], steps[u], r, key);
        RunKeepsInv(states, steps, u);
        assert states[u + 1] == Next(states[u], steps[u]);
        DropIsRecorded(states[u], steps[u], r, key);
        RunAdvances(states, steps, r, u + 1, m);
      }
    }
    UnchangedSince(states, steps, key, f.readAt, m);
  }

  /** The same across replicas: last change, then bump, then a completed poll that read it. */
  lemma {:induction false} PolledKeyIsNeverStale(
    states: seq<State>, steps: seq<Step>, r: nat, written: nat, bumped: nat, applied: nat, m: nat, key: Key, f: Fetched)
    requires PolledSince(states, steps, r, bumped, applied, m)
    requires written < bumped && steps[written].Write?
    requires Usable(states[m].replicas[r], key, f)
    requires forall w :: written < w < m ==> !Changes(states[w], steps[w], key)
    ensures Now(states[m]) == m && states[m].hist[m](key) == Some(f.value)
  {
    PolledReplicaHoldsNothingOlder(states, steps, r, written, bumped, applied, m, key, f);
    UnchangedSince(states, steps, key, f.readAt, m);
  }

  lemma {:induction false} RunKeepsInv(states: seq<State>, steps: seq<Step>, i: nat)
    requires IsRun(states, steps) && i < |states|
    ensures Inv(states[i]) && Now(states[i]) == i && states[i].replicas.Keys == states[0].replicas.Keys
    decreases i
  {
    if i == 0 {
      InitIsOk(states[0]);
    } else {
      RunKeepsInv(states, steps, i - 1);
      StepKeepsInv(states[i - 1], steps[i - 1]);
      assert states[i] == Next(states[i - 1], steps[i - 1]);
    }
  }

  lemma {:induction false} StepKeepsInv(s: State, step: Step)
    requires Inv(s) && Enabled(s, step)
    ensures Inv(Next(s, step))
  {
    var s' := Next(s, step);
    NextIsLater(s, step);
    forall r | r in s'.replicas ensures ReplicaOk(s', s'.replicas[r]) {
      if OwnStep(step, r) {
        OwnStepKeepsOk(s, step, r);
      } else {
        assert ReplicaOk(s, s.replicas[r]);
        IdleReplicaStaysOk(s, s', s.replicas[r]);
      }
    }
  }

  /** The guarded fill: it stores only what was read after the last invalidation. */
  lemma {:induction false} FillKeepsOk(s: State, rep: Replica, id: nat, now: real)
    requires ReplicaOk(s, rep) && id in rep.readers && rep.readers[id].fetched.Some?
    ensures var rd := rep.readers[id];
            var outcome := Put(rep.cache, rd.key, rd.fetched.value, Some(rd.captured), now);
            outcome.Stored? ==> ReplicaOk(s, rep.(cache := outcome.cache))
  {
    var rd := rep.readers[id];
    var outcome := Put(rep.cache, rd.key, rd.fetched.value, Some(rd.captured), now);
    PutKeepsLimit(rep.cache, rd.key, rd.fetched.value, Some(rd.captured), now);
    hide Put;
    if outcome.Stored? {
      var rep' := rep.(cache := outcome.cache);
      SamePollerOk(s, rep, rep');
      assert ReaderOk(s, rep, rd);
      FilledCacheOk(s, rep, rd.key, Entry(rd.fetched.value, Deadline(rep.cache.ttl, now)), outcome.cache);
      assert StampsOk(s, rep') by {
        assert forall k :: DroppedAt(rep', k) == DroppedAt(rep, k);
      }
      forall other | other in rep'.readers ensures ReaderOk(s, rep', rep'.readers[other]) {
        assert ReaderOk(s, rep, rep.readers[other]);
      }
      hide CacheOk;
      hide PollerOk;
      hide StampsOk;
      hide ReaderOk;
    }
  }

  /** No cache ever exceeds its limit. */
  lemma {:induction false} CachesStayWithinLimit(states: seq<State>, steps: seq<Step>, i: nat, r: nat)
    requires IsRun(states, steps) && i < |states| && r in states[i].replicas
    ensures WithinLimit(states[i].replicas[r].cache)
  {
    RunKeepsInv(states, steps, i);
    assert ReplicaOk(states[i], states[i].replicas[r]);
  }

  // ---------- Every step keeps the invariant ----------

  /** The shared part of a state one step later. */
  ghost predicate Later(s: State, s': State) {
    && |s.hist| > 0 && |s'.hist| == |s.hist| + 1
    && s'.base == s.base
    && (|s'.bumps| == |s.bumps| || (|s'.bumps| == |s.bumps| + 1 && s'.bumps[|s.bumps|] == Now(s)))
    && (forall j :: 0 <= j < |s.bumps| ==> s'.bumps[j] == s.bumps[j])
    && forall t :: 0 <= t < |s.hist| ==> s'.hist[t] == s.hist[t]
  }

  lemma {:induction false} NextIsLater(s: State, step: Step)
    requires |s.hist| > 0
    ensures Later(s, Next(s, step))
  {
  }

  lemma {:induction false} PollerStaysOk(s: State, s': State, rep: Replica)
    requires Later(s, s') && BumpsOk(s) && PollerOk(s, rep) && rep.initAt <= Now(s)
    ensures PollerOk(s', rep)
  {
    assert forall j :: 0 <= j < |s.bumps| ==> s'.bumps[j] == s.bumps[j];
  }

  /** A replica that does not move stays well: time passes, rows are written, versions are bumped. */
  lemma {:induction false} IdleReplicaStaysOk(s: State, s': State, rep: Replica)
    requires Later(s, s') && BumpsOk(s) && ReplicaOk(s, rep)
    ensures ReplicaOk(s', rep)
  {
    PollerStaysOk(s, s', rep);
    hide PollerOk;
    assert forall k, f :: Honest(s, k, f) ==> Honest(s', k, f);
    assert forall rd :: ReaderOk(s, rep, rd) ==> ReaderOk(s', rep, rd);
  }

  lemma {:induction false} ClearKeepsOk(s: State, s': State, rep: Replica)
    requires Later(s, s') && BumpsOk(s) && ReplicaOk(s, rep)
    ensures ReplicaOk(s', ClearReplica(rep, Now(s)))
  {
    IdleReplicaStaysOk(s, s', rep);
    var rep' := ClearReplica(rep, Now(s));
    assert Members(rep'.cache.order) == {};
    forall id | id in rep'.readers ensures ReaderOk(s', rep', rep'.readers[id]) {
      assert ReaderOk(s', rep, rep.readers[id]);
    }
    assert forall k :: DroppedAt(rep', k) == DroppedAt(rep, k);
  }

  lemma {:induction false} PollReadKeepsOk(s: State, s': State, rep: Replica)
    requires Later(s, s') && BumpsOk(s) && ReplicaOk(s, rep)
    ensures ReplicaOk(s', rep.(poll := Some(Poll(Row(s), Now(s)))))
  {
    IdleReplicaStaysOk(s, s', rep);
    var rep' := rep.(poll := Some(Poll(Row(s), Now(s))));
    assert CacheOk(s', rep') && StampsOk(s', rep') by {
      assert forall k :: DroppedAt(rep', k) == DroppedAt(rep, k);
    }
    forall id | id in rep'.readers ensures ReaderOk(s', rep', rep'.readers[id]) {
      assert ReaderOk(s', rep, rep.readers[id]);
    }
  }

  /** Forgetting the poll in progress, and learning what it read, without a callback. */
  lemma {:induction false} LearnKeepsOk(s: State, rep: Replica, known: Option<nat>, initAt: nat)
    requires ReplicaOk(s, rep) && initAt <= Now(s)
    requires known.Some? ==> 0 < known.value <= s.base + |s.bumps|
    requires KnownIsCleared(s, rep.(known := known, initAt := initAt))
    ensures ReplicaOk(s, rep.(known := known, initialized := true, poll := None, initAt := initAt))
  {
    var rep' := rep.(known := known, initialized := true, poll := None, initAt := initAt);
    assert CacheOk(s, rep') && StampsOk(s, rep') by {
      assert forall k :: DroppedAt(rep', k) == DroppedAt(rep, k);
    }
    forall id | id in rep'.readers ensures ReaderOk(s, rep', rep'.readers[id]) {
      assert ReaderOk(s, rep, rep.readers[id]);
    }
  }

  lemma {:induction false} PollApplyKeepsOk(s: State, s': State, rep: Replica)
    requires Later(s, s') && s'.bumps == s.bumps && BumpsOk(s) && ReplicaOk(s, rep) && rep.poll.Some?
    ensures ReplicaOk(s', ApplyPoll(rep, Now(s)))
  {
    var (known, fires) := PollRow(rep.known, rep.initialized, rep.poll.value.row);
    var initAt := if rep.initialized then rep.initAt else Now(s) + 1;
    var rep1 := if fires then ClearReplica(rep, Now(s)) else rep;
    if fires {
      ClearKeepsOk(s, s', rep);
    } else {
      IdleReplicaStaysOk(s, s', rep);
    }
    assert KnownIsCleared(s', rep1.(known := known, initAt := initAt));
    hide ReplicaOk;
    LearnKeepsOk(s', rep1, known, initAt);
  }

  lemma {:induction false} PollFailKeepsOk(s: State, s': State, rep: Replica)
    requires Later(s, s') && BumpsOk(s) && ReplicaOk(s, rep)
    ensures ReplicaOk(s', rep.(poll := None))
  {
    IdleReplicaStaysOk(s, s', rep);
    var rep' := rep.(poll := None);
    assert CacheOk(s', rep') && StampsOk(s', rep') by {
      assert forall k :: DroppedAt(rep', k) == DroppedAt(rep, k);
    }
    forall id | id in rep'.readers ensures ReaderOk(s', rep', rep'.readers[id]) {
      assert ReaderOk(s', rep, rep.readers[id]);
    }
  }

  lemma {:induction false} SamePollerOk(s: State, rep: Replica, rep': Replica)
    requires PollerOk(s, rep)
    requires rep'.known == rep.known && rep'.initialized == rep.initialized && rep'.poll == rep.poll
    requires rep'.initAt == rep.initAt && rep'.clearedAt == rep.clearedAt
    ensures PollerOk(s, rep')
  {
  }

  lemma {:induction false} InvalidatedCacheOk(s: State, rep: Replica, key: Key, t: nat)
    requires CacheOk(s, rep)
    ensures CacheOk(s, InvalidateReplica(rep, key, t))
  {
    DroppedFacts(rep.cache, key);
    var rep' := InvalidateReplica(rep, key, t);
    assert rep'.cache == Dropped(rep.cache, key) && rep'.clearedAt == rep.clearedAt;
    assert rep'.droppedAt == rep.droppedAt[key := t + 1];
    hide WellFormed;
    hide Dropped;
    hide Honest;
    forall k ensures k != key ==> DroppedAt(rep', k) == DroppedAt(rep, k) {
    }
    hide InvalidateReplica;
    hide DroppedAt;
    forall k | k in rep'.cache.entries
      ensures Honest(s, k, rep'.cache.entries[k].data)
      ensures rep'.clearedAt <= rep'.cache.entries[k].data.readAt
      ensures DroppedAt(rep', k) <= rep'.cache.entries[k].data.readAt
    {
      assert k != key && k in rep.cache.entries;
    }
  }

  lemma {:induction false} InvalidateKeepsOk(s: State, s': State, rep: Replica, key: Key)
    requires Later(s, s') && BumpsOk(s) && ReplicaOk(s, rep)
    ensures ReplicaOk(s', InvalidateReplica(rep, key, Now(s)))
  {
    IdleReplicaStaysOk(s, s', rep);
    var rep' := InvalidateReplica(rep, key, Now(s));
    assert rep.changedAt <= Now(s) < Now(s');
    hide CacheOk;
    hide PollerOk;
    hide StampsOk;
    hide ReaderOk;
    SamePollerOk(s', rep, rep');
    InvalidatedCacheOk(s', rep, key, Now(s));
    InvalidatedStampsOk(s', rep, key, Now(s));
    forall id | id in rep'.readers ensures ReaderOk(s', rep', rep'.readers[id]) {
      InvalidatedReaderOk(s', rep, rep.readers[id], key, Now(s));
    }
  }

  lemma {:induction false} InvalidatedStampsOk(s: State, rep: Replica, key: Key, t: nat)
    requires StampsOk(s, rep) && rep.changedAt <= t < Now(s)
    ensures StampsOk(s, InvalidateReplica(rep, key, t))
  {
    var rep' := InvalidateReplica(rep, key, t);
    assert forall k :: DroppedAt(rep', k) == if k == key then t + 1 else DroppedAt(rep, k);
  }

  lemma {:induction false} InvalidatedReaderOk(s: State, rep: Replica, rd: Reader, key: Key, t: nat)
    requires ReaderOk(s, rep, rd)
    ensures ReaderOk(s, InvalidateReplica(rep, key, t), rd)
  {
  }

  lemma {:induction false} ReadersKeepOk(s: State, rep: Replica, readers: map<nat, Reader>)
    requires ReplicaOk(s, rep)
    requires forall id :: id in readers ==> ReaderOk(s, rep, readers[id])
    ensures ReplicaOk(s, rep.(readers := readers))
  {
    var rep' := rep.(readers := readers);
    assert forall k :: DroppedAt(rep', k) == DroppedAt(rep, k);
    assert forall rd :: ReaderOk(s, rep', rd) <==> ReaderOk(s, rep, rd);
  }

  lemma {:induction false} BeginKeepsOk(s: State, s': State, rep: Replica, id: nat, key: Key)
    requires Later(s, s') && BumpsOk(s) && ReplicaOk(s, rep)
    ensures ReplicaOk(s', rep.(readers := rep.readers[id := Reader(key, rep.cache.version, Now(s), None)]))
  {
    IdleReplicaStaysOk(s, s', rep);
    ReadersKeepOk(s', rep, rep.readers[id := Reader(key, rep.cache.version, Now(s), None)]);
  }

  lemma {:induction false} FetchKeepsOk(s: State, s': State, rep: Replica, id: nat, value: string)
    requires Later(s, s') && BumpsOk(s) && ReplicaOk(s, rep) && id in rep.readers
    requires s.hist[Now(s)](rep.readers[id].key) == Some(value)
    ensures ReplicaOk(s', rep.(readers := rep.readers[id := rep.readers[id].(fetched := Some(Fetched(value, Now(s))))]))
  {
    IdleReplicaStaysOk(s, s', rep);
    var rd := rep.readers[id].(fetched := Some(Fetched(value, Now(s))));
    assert ReaderOk(s, rep, rep.readers[id]) && ReaderOk(s', rep, rep.readers[id]);
    assert ReaderOk(s', rep, rd);
    ReadersKeepOk(s', rep, rep.readers[id := rd]);
  }

  lemma {:induction false} DropReaderKeepsOk(s: State, s': State, rep: Replica, id: nat)
    requires Later(s, s') && BumpsOk(s) && ReplicaOk(s, rep)
    ensures ReplicaOk(s', rep.(readers := rep.readers - {id}))
  {
    IdleReplicaStaysOk(s, s', rep);
    ReadersKeepOk(s', rep, rep.readers - {id});
  }

  lemma {:induction false} FilledCacheOk(s: State, rep: Replica, key: Key, e: Entry<Fetched>, c: Cache<Fetched>)
    requires CacheOk(s, rep) && FilledFrom(rep.cache, c, key, e)
    requires Honest(s, key, e.data) && rep.clearedAt <= e.data.readAt && DroppedAt(rep, key) <= e.data.readAt
    ensures CacheOk(s, rep.(cache := c))
  {
    hide Members;
    hide NoRepeats;
    hide Honest;
    var rep' := rep.(cache := c);
    forall k | k in c.entries
      ensures Honest(s, k, c.entries[k].data)
      ensures rep'.clearedAt <= c.entries[k].data.readAt
      ensures DroppedAt(rep', k) <= c.entries[k].data.readAt
    {
      assert DroppedAt(rep', k) == DroppedAt(rep, k);
      assert k != key ==> k in rep.cache.entries && c.entries[k] == rep.cache.entries[k];
    }
  }

  lemma {:induction false} OwnStepKeepsOk(s: State, step: Step, r: nat)
    requires Inv(s) && Enabled(s, step) && r in s.replicas && OwnStep(step, r)
    ensures ReplicaOk(Next(s, step), NextReplica(s, s.replicas[r], step))
  {
    NextIsLater(s, step);
    var s', rep := Next(s, step), s.replicas[r];
    assert s'.bumps == s.bumps && ReplicaOk(s, rep) && BumpsOk(s);
    hide ReplicaOk;
    hide Inv;
    hide Next;
    hide Later;
    hide Put;
    match step
    case PollRead(_) => PollReadKeepsOk(s, s', rep);
    case PollApply(_) => PollApplyKeepsOk(s, s', rep);
    case PollFail(_) => PollFailKeepsOk(s, s', rep);
    case LocalInvalidate(_, key) => InvalidateKeepsOk(s, s', rep, key);
    case LocalClear(_) => ClearKeepsOk(s, s', rep);
    case BeginRead(_, id, key) => BeginKeepsOk(s, s', rep, id, key);
    case FetchRow(_, id) => FetchStepKeepsOk(s, step, r, id);
    case FillCache(_, id, now) => FillStepKeepsOk(s, step, r, id, now);
  }

  lemma {:induction false} FetchStepKeepsOk(s: State, step: Step, r: nat, id: nat)
    requires Inv(s) && Enabled(s, step) && r in s.replicas && step == FetchRow(r, id)
    ensures ReplicaOk(Next(s, step), NextReplica(s, s.replicas[r], step))
  {
    NextIsLater(s, step);
    var s', rep := Next(s, step), s.replicas[r];
    assert s'.bumps == s.bumps && ReplicaOk(s, rep) && BumpsOk(s);
    hide ReplicaOk;
    hide Inv;
    hide Next;
    hide Later;
    match s.hist[Now(s)](rep.readers[id].key)
    case None => DropReaderKeepsOk(s, s', rep, id);
    case Some(v) => FetchKeepsOk(s, s', rep, id, v);
  }

  lemma {:induction false} FillStepKeepsOk(s: State, step: Step, r: nat, id: nat, now: real)
    requires Inv(s) && Enabled(s, step) && r in s.replicas && step == FillCache(r, id, now)
    ensures ReplicaOk(Next(s, step), NextReplica(s, s.replicas[r], step))
  {
    NextIsLater(s, step);
    var s', rep := Next(s, step), s.replicas[r];
    assert s'.bumps == s.bumps && ReplicaOk(s, rep) && BumpsOk(s);
    hide ReplicaOk;
    hide Inv;
    hide Next;
    hide Later;
    hide Put;
    var rd := rep.readers[id];
    var outcome := Put(rep.cache, rd.key, rd.fetched.value, Some(rd.captured), now);
    FillKeepsOk(s, rep, id, now);
    DropReaderKeepsOk(s, s', if outcome.Stored? then rep.(cache := outcome.cache) else rep, id);
  }

  lemma {:induction false} InitIsOk(s: State)
    requires Init(s)
    ensures Inv(s)
  {
    forall r | r in s.replicas ensures ReplicaOk(s, s.replicas[r]) {
      assert FreshReplica(s.replicas[r]);
      assert Members([]) == {};
    }
  }

  // ---------- Nothing learned or cleared is forgotten ----------

  ghost predicate Advanced(a: Replica, b: Replica) {
    && (a.initialized ==> b.initialized && b.initAt == a.initAt)
    && (a.known.Some? ==> b.known.Some? && a.known.value <= b.known.value)
    && a.clearedAt <= b.clearedAt
    && forall k :: DroppedAt(a, k) <= DroppedAt(b, k)
  }

  lemma {:induction false} OwnStepAdvances(s: State, rep: Replica, step: Step)
    requires |s.hist| > 0 && ReplicaOk(s, rep)
    ensures Advanced(rep, NextReplica(s, rep, step))
  {
    hide CacheOk;
    hide ReaderOk;
    hide Put;
    if step.FillCache? || step.FetchRow? || step.BeginRead? {
      assert NextReplica(s, rep, step).droppedAt == rep.droppedAt;
    }
  }

  lemma {:induction false} StepAdvances(s: State, step: Step, r: nat)
    requires Inv(s) && r in s.replicas
    ensures r in Next(s, step).replicas && Advanced(s.replicas[r], Next(s, step).replicas[r])
  {
    assert ReplicaOk(s, s.replicas[r]);
    if OwnStep(step, r) {
      OwnStepAdvances(s, s.replicas[r], step);
    }
  }

  /** State `s'` is at or after `s`, seen from replica `r`. */
  ghost predicate AtOrAfter(s: State, s': State, r: nat) {
    && s'.base == s.base && s.bumps <= s'.bumps && s.hist <= s'.hist
    && r in s.replicas && r in s'.replicas && Advanced(s.replicas[r], s'.replicas[r])
  }

  lemma {:induction false} AtOrAfterIsTransitive(a: State, b: State, c: State, r: nat)
    requires AtOrAfter(a, b, r) && AtOrAfter(b, c, r)
    ensures AtOrAfter(a, c, r)
  {
    var x, y, z := a.replicas[r], b.replicas[r], c.replicas[r];
    assert forall k :: DroppedAt(x, k) <= DroppedAt(y, k) <= DroppedAt(z, k);
  }

  lemma {:induction false} RunStepAdvances(states: seq<State>, steps: seq<Step>, r: nat, i: nat)
    requires IsRun(states, steps) && i < |steps| && r in states[0].replicas
    ensures AtOrAfter(states[i], states[i + 1], r)
  {
    RunKeepsInv(states, steps, i);
    StepAdvances(states[i], steps[i], r);
    assert states[i + 1] == Next(states[i], steps[i]);
  }

  lemma {:induction false} RunHasReplica(states: seq<State>, steps: seq<Step>, r: nat, i: nat)
    requires IsRun(states, steps) && i < |states| && r in states[0].replicas
    ensures AtOrAfter(states[i], states[i], r)
  {
    RunKeepsInv(states, steps, i);
  }

  lemma {:induction false} RunAdvances(states: seq<State>, steps: seq<Step>, r: nat, i: nat, m: nat)
    requires IsRun(states, steps) && i <= m < |states| && r in states[0].replicas
    ensures AtOrAfter(states[i], states[m], r)
    decreases m
  {
    assert |states| == |steps| + 1;
    hide *;
    RunHasReplica(states, steps, r, i);
    if i < m {
      RunStepAdvances(states, steps, r, m - 1);
      RunAdvances(states, steps, r, i, m - 1);
      AtOrAfterIsTransitive(states[i], states[m - 1], states[m], r);
    }
  }

  // ---------- The promises over whole runs ----------

  /** A value a replica holds, or could still store: its fill would not be refused. */
  ghost predicate Usable(rep: Replica, key: Key, f: Fetched) {
    || (key in rep.cache.entries && rep.cache.entries[key].data == f)
    || exists id :: id in rep.readers && rep.readers[id].key == key
                    && rep.readers[id].captured == rep.cache.version && rep.readers[id].fetched == Some(f)
  }

  lemma {:induction false} UsableIsHonestAndFresh(s: State, rep: Replica, key: Key, f: Fetched)
    requires ReplicaOk(s, rep) && Usable(rep, key, f)
    ensures Honest(s, key, f) && rep.clearedAt <= f.readAt && DroppedAt(rep, key) <= f.readAt
  {
    if !(key in rep.cache.entries && rep.cache.entries[key].data == f) {
      var id :| id in rep.readers && rep.readers[id].key == key
                && rep.readers[id].captured == rep.cache.version && rep.readers[id].fetched == Some(f);
      assert ReaderOk(s, rep, rep.readers[id]);
      assert DroppedAt(rep, key) <= rep.changedAt;
    }
  }

  /** Applying a poll that was read after the bump leaves the replica knowing that bump. */
  lemma {:induction false} AppliedPollKnowsBump(s: State, rep: Replica, j: nat)
    requires ReplicaOk(s, rep) && rep.poll.Some? && j < |s.bumps| && s.bumps[j] < rep.poll.value.readAt
    ensures var rep' := ApplyPoll(rep, Now(s));
            rep'.known.Some? && s.base + j < rep'.known.value
  {
  }

  /** The replica completed, before `m`, a poll that read the bump made at step `bumped`. */
  ghost predicate PolledSince(states: seq<State>, steps: seq<Step>, r: nat, bumped: nat, applied: nat, m: nat) {
    && IsRun(states, steps) && bumped < applied < m < |states|
    && r in states[0].replicas && r in states[bumped].replicas && r in states[applied].replicas && r in states[m].replicas
    && steps[bumped].Bump? && states[bumped].replicas[r].initialized
    && steps[applied] == PollApply(r)
    && states[applied].replicas[r].poll.Some? && states[applied].replicas[r].poll.value.readAt > bumped
  }

  /** Position of the bump in the bump history, from the step after it on. */
  lemma {:induction false} BumpPosition(states: seq<State>, steps: seq<Step>, r: nat, bumped: nat, m: nat)
    requires IsRun(states, steps) && r in states[0].replicas && bumped < m < |states| && steps[bumped].Bump?
    ensures var j := |states[bumped].bumps|;
            j < |states[m].bumps| && states[m].bumps[j] == bumped && states[m].base == states[bumped].base
  {
    RunKeepsInv(states, steps, bumped);
    assert states[bumped + 1] == Next(states[bumped], steps[bumped]);
    RunAdvances(states, steps, r, bumped + 1, m);
  }

  lemma {:induction false} BumpIsKnownAfterPoll(states: seq<State>, steps: seq<Step>, r: nat, bumped: nat,
                                                applied: nat, m: nat)
    requires PolledSince(states, steps, r, bumped, applied, m)
    ensures var rep := states[m].replicas[r];
            rep.known.Some? && states[m].base + |states[bumped].bumps| < rep.known.value
  {
    var j := |states[bumped].bumps|;
    BumpPosition(states, steps, r, bumped, applied);
    BumpPosition(states, steps, r, bumped, m);
    RunKeepsInv(states, steps, applied);
    assert ReplicaOk(states[applied], states[applied].replicas[r]);
    AppliedPollKnowsBump(states[applied], states[applied].replicas[r], j);
    PollIsApplied(states, steps, r, applied);
    hide Inv;
    hide ReplicaOk;
    hide ApplyPoll;
    hide Next;
    RunAdvances(states, steps, r, applied + 1, m);
  }

  lemma {:induction false} PollIsApplied(states: seq<State>, steps: seq<Step>, r: nat, applied: nat)
    requires IsRun(states, steps) && applied < |steps| && steps[applied] == PollApply(r)
    requires r in states[0].replicas && r in states[applied].replicas && Now(states[applied]) == applied
    ensures r in states[applied + 1].replicas
    ensures states[applied + 1].replicas[r] == ApplyPoll(states[applied].replicas[r], applied)
    ensures states[applied + 1].base == states[applied].base
  {
    hide ApplyPoll;
    assert states[applied + 1] == Next(states[applied], steps[applied]);
  }

  lemma {:induction false} ClearedAfterPoll(states: seq<State>, steps: seq<Step>, r: nat, bumped: nat, applied: nat,
                                            m: nat)
    requires PolledSince(states, steps, r, bumped, applied, m)
    ensures ReplicaOk(states[m], states[m].replicas[r]) && Now(states[m]) == m
    ensures states[m].replicas[r].clearedAt > bumped
  {
    var j := |states[bumped].bumps|;
    BumpIsKnownAfterPoll(states, steps, r, bumped, applied, m);
    BumpPosition(states, steps, r, bumped, m);
    RunKeepsInv(states, steps, bumped);
    RunKeepsInv(states, steps, m);
    RunAdvances(states, steps, r, bumped, m);
    hide IsRun;
    assert ReplicaOk(states[bumped], states[bumped].replicas[r]);
    assert ReplicaOk(states[m], states[m].replicas[r]);
    assert states[m].replicas[r].initAt <= states[m].bumps[j];
    hide CacheOk;
    hide ReaderOk;
    hide PollOk;
  }

  /** The step removes `key` from the cache of replica `r`. */
  predicate Drops(s: State, step: Step, r: nat, key: Key) {
    || step == LocalInvalidate(r, key)
    || step == LocalClear(r)
    || (step == PollApply(r) && r in s.replicas && s.replicas[r].poll.Some?
        && PollRow(s.replicas[r].known, s.replicas[r].initialized, s.replicas[r].poll.value.row).1)
  }

  predicate Changes(s: State, step: Step, key: Key)
    requires |s.hist| > 0
  {
    step.Write? && step.db(key) != s.hist[Now(s)](key)
  }

  lemma {:induction false} DropIsRecorded(s: State, step: Step, r: nat, key: Key)
    requires Inv(s) && r in s.replicas && Drops(s, step, r, key)
    ensures var rep := Next(s, step).replicas[r];
            rep.clearedAt == Now(s) + 1 || DroppedAt(rep, key) == Now(s) + 1
  {
  }

  lemma {:induction false} UnchangedSince(states: seq<State>, steps: seq<Step>, key: Key, from: nat, m: nat)
    requires IsRun(states, steps) && from <= m < |states|
    requires forall w :: from <= w < m ==> !Changes(states[w], steps[w], key)
    ensures Now(states[m]) == m && states[m].hist[from](key) == states[m].hist[m](key)
    decreases m
  {
    RunKeepsInv(states, steps, m);
    if from < m {
      UnchangedSince(states, steps, key, from, m - 1);
      RunKeepsInv(states, steps, m - 1);
      assert states[m] == Next(states[m - 1], steps[m - 1]);
      assert !Changes(states[m - 1], steps[m - 1], key);
    }
  }
}
