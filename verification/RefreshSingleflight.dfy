/**
 `_RefreshSingleflight` of app/modules/accounts/auth_manager.py: at most one token refresh per
 (account, token fingerprint) at a time, and a cool-down after a recorded failure.

 Steps are the lock-protected blocks of `run` and `_complete` and the completion of a task, in
 any interleaving; `clear` is not one of them.
 */
module RefreshSingleflight {
  import opened Options

  datatype Key = Key(account: string, fingerprint: string)

  datatype Status =
    | Running
    | Succeeded
    | RefreshFailed(code: string)   // RefreshError
    | OtherFailure
    | Cancelled

  datatype CachedFailure = CachedFailure(expiresAt: real, code: string)

  datatype Task = Task(key: Key, status: Status)

  /** The two dicts of the object. */
  datatype Flight = Flight(inflight: map<Key, nat>, failures: map<Key, CachedFailure>)

  predicate Done(tasks: map<nat, Task>, id: nat) {
    id in tasks && tasks[id].status != Running
  }

  predicate StaleFor(k: Key, keep: Key) {
    k.account == keep.account && k != keep
  }

  function Purge(f: Flight, tasks: map<nat, Task>, keep: Key): Flight {
    Flight(
      map k | k in f.inflight && !(StaleFor(k, keep) && Done(tasks, f.inflight[k])) :: f.inflight[k],
      map k | k in f.failures && !StaleFor(k, keep) :: f.failures[k])
  }

  datatype RunOutcome = CoolingDown(failure: CachedFailure) | Joined(task: nat) | Started

  predicate Cooling(f: Flight, key: Key, now: real) {
    key in f.failures && f.failures[key].expiresAt > now
  }

  /** What `run` does for `key`, on the purged dicts. */
  function RunOutcomeOf(f: Flight, tasks: map<nat, Task>, key: Key, now: real): RunOutcome {
    if Cooling(f, key, now) then CoolingDown(f.failures[key])
    else if key in f.inflight && (!Done(tasks, f.inflight[key]) || tasks[f.inflight[key]].status == Succeeded) then
      Joined(f.inflight[key])
    else Started
  }

  /** The dicts after `run`; `newTask` names the refresh started, if any. */
  function AfterRun(f: Flight, tasks: map<nat, Task>, key: Key, now: real, newTask: nat): Flight {
    var p := Purge(f, tasks, key);
    if Cooling(p, key, now) then p
    else
      var q := p.(failures := p.failures - {key});
      if RunOutcomeOf(p, tasks, key, now).Started? then q.(inflight := q.inflight[key := newTask]) else q
  }

  function AfterComplete(f: Flight, id: nat, task: Task, now: real, ttl: real): Flight {
    var k := task.key;
    var inflight := if k in f.inflight && f.inflight[k] == id then f.inflight - {k} else f.inflight;
    match task.status
    case RefreshFailed(code) =>
      Flight(inflight, if ttl > 0.0 then f.failures[k := CachedFailure(now + ttl, code)] else f.failures)
    case _ => Flight(inflight, f.failures - {k})
  }

  // ---------- The object ----------

  class Singleflight {
    var inflight: map<Key, nat>
    var failures: map<Key, CachedFailure>

    constructor ()
      ensures View() == Flight(map[], map[])
    {
      inflight, failures := map[], map[];
    }

    ghost function View(): Flight
      reads this
    {
      Flight(inflight, failures)
    }

    /** The block under the lock; `newTask` names the refresh to start if one is needed. */
    method Run(tasks: map<nat, Task>, key: Key, now: real, newTask: nat) returns (outcome: RunOutcome)
      modifies this
      ensures outcome == RunOutcomeOf(Purge(old(View()), tasks, key), tasks, key, now)
      ensures View() == AfterRun(old(View()), tasks, key, now, newTask)
    {
      failures := map k | k in failures && !StaleFor(k, key) :: failures[k];
      inflight := map k | k in inflight && !(StaleFor(k, key) && Done(tasks, inflight[k])) :: inflight[k];
      assert View() == Purge(old(View()), tasks, key);
      if key in failures {
        if failures[key].expiresAt > now {
          return CoolingDown(failures[key]);
        }
      }
      failures := failures - {key};
      if key in inflight && Done(tasks, inflight[key]) && tasks[inflight[key]].status == Succeeded {
        return Joined(inflight[key]);
      } else if key !in inflight || Done(tasks, inflight[key]) {
        inflight := inflight[key := newTask];
        return Started;
      }
      return Joined(inflight[key]);
    }

    method Complete(id: nat, task: Task, now: real, ttl: real)
      modifies this
      ensures View() == AfterComplete(old(View()), id, task, now, ttl)
    {
      var k := task.key;
      if k in inflight && inflight[k] == id {
        inflight := inflight - {k};
      }
      match task.status
      case RefreshFailed(code) =>
        if ttl > 0.0 {
          failures := failures[k := CachedFailure(now + ttl, code)];
        }
      case _ => failures := failures - {k};
    }
  }

  // ---------- The protocol ----------

  datatype State = State(tasks: map<nat, Task>, pending: set<nat>, flight: Flight)

  datatype Step =
    | RunStep(key: Key, newTask: nat, now: real)
    | TaskDone(id: nat, status: Status, now: real)
    | CompleteStep(id: nat, now: real)

  predicate Enabled(s: State, step: Step) {
    match step
    case RunStep(_, newTask, _) => newTask !in s.tasks
    case TaskDone(id, status, _) => id in s.tasks && s.tasks[id].status == Running && status != Running
    case CompleteStep(id, _) => id in s.pending && Done(s.tasks, id)
  }

  function Outcome(s: State, step: Step): RunOutcome
    requires step.RunStep?
  {
    RunOutcomeOf(Purge(s.flight, s.tasks, step.key), s.tasks, step.key, step.now)
  }

  function Next(s: State, step: Step, ttl: real): State
    requires Enabled(s, step)
  {
    match step
    case RunStep(key, newTask, now) =>
      var flight := AfterRun(s.flight, s.tasks, key, now, newTask);
      if Outcome(s, step).Started? then State(s.tasks[newTask := Task(key, Running)], s.pending, flight)
      else s.(flight := flight)
    case TaskDone(id, status, _) =>
      s.(tasks := s.tasks[id := s.tasks[id].(status := status)], pending := s.pending + {id})
    case CompleteStep(id, now) =>
      s.(pending := s.pending - {id}, flight := AfterComplete(s.flight, id, s.tasks[id], now, ttl))
  }

  predicate IsRun(states: seq<State>, steps: seq<Step>, ttl: real) {
    && |states| == |steps| + 1
    && states[0] == State(map[], {}, Flight(map[], map[]))
    && (forall i :: 0 <= i < |steps| ==> Enabled(states[i], steps[i]) && states[i + 1] == Next(states[i], steps[i], ttl))
    && forall i, j :: 0 <= i <= j < |steps| ==> steps[i].now <= steps[j].now
  }

  /** Every unfinished refresh is the one registered for its key. */
  ghost predicate Inv(s: State) {
    && (forall k :: k in s.flight.inflight ==> s.flight.inflight[k] in s.tasks && s.tasks[s.flight.inflight[k]].key == k)
    && (forall id :: id in s.tasks && s.tasks[id].status == Running ==>
          s.tasks[id].key in s.flight.inflight && s.flight.inflight[s.tasks[id].key] == id)
  }

  lemma {:induction false} RunStepKeepsInv(s: State, step: Step, ttl: real)
    requires Inv(s) && step.RunStep? && Enabled(s, step)
    ensures Inv(Next(s, step, ttl))
  {
    var p := Purge(s.flight, s.tasks, step.key);
    var s' := Next(s, step, ttl);
    assert forall k :: k in p.inflight ==> k in s.flight.inflight && p.inflight[k] == s.flight.inflight[k];
    forall id | id in s'.tasks && s'.tasks[id].status == Running
      ensures s'.tasks[id].key in s'.flight.inflight && s'.flight.inflight[s'.tasks[id].key] == id
    {
      if id in s.tasks {
        var k := s.tasks[id].key;
        assert k in p.inflight && p.inflight[k] == id;
      }
    }
  }

  lemma {:induction false} StepKeepsInv(s: State, step: Step, ttl: real)
    requires Inv(s) && Enabled(s, step)
    ensures Inv(Next(s, step, ttl))
  {
    if step.RunStep? {
      RunStepKeepsInv(s, step, ttl);
    }
  }

  lemma {:induction false} RunKeepsInv(states: seq<State>, steps: seq<Step>, ttl: real, i: nat)
    requires IsRun(states, steps, ttl) && i < |states|
    ensures Inv(states[i])
    decreases i
  {
    if i > 0 {
      RunKeepsInv(states, steps, ttl, i - 1);
      StepKeepsInv(states[i - 1], steps[i - 1], ttl);
    }
  }

  /** In every interleaving there is at most one unfinished refresh per key. */
  lemma {:induction false} AtMostOneRefresh(states: seq<State>, steps: seq<Step>, ttl: real, i: nat, x: nat, y: nat)
    requires IsRun(states, steps, ttl) && i < |states| && x in states[i].tasks && y in states[i].tasks
    requires states[i].tasks[x].status == Running && states[i].tasks[y].status == Running
    requires states[i].tasks[x].key == states[i].tasks[y].key
    ensures x == y
  {
    RunKeepsInv(states, steps, ttl, i);
  }

  /** The recorded failure of `key`, after the purge of other fingerprints, is what `run` looks at. */
  lemma {:induction false} PurgeKeepsOwn(f: Flight, tasks: map<nat, Task>, key: Key, now: real)
    ensures Cooling(Purge(f, tasks, key), key, now) <==> Cooling(f, key, now)
    ensures Cooling(f, key, now) ==> Purge(f, tasks, key).failures[key] == f.failures[key]
    ensures key in f.inflight ==> key in Purge(f, tasks, key).inflight
                                  && Purge(f, tasks, key).inflight[key] == f.inflight[key]
  {
    hide Cooling;
    var p := Purge(f, tasks, key);
    assert key in p.failures <==> key in f.failures;
    assert key in f.failures ==> p.failures[key] == f.failures[key];
    CoolingDependsOnEntry(p, f, key, now);
  }

  lemma {:induction false} CoolingDependsOnEntry(p: Flight, f: Flight, key: Key, now: real)
    requires key in p.failures <==> key in f.failures
    requires key in f.failures ==> p.failures[key] == f.failures[key]
    ensures Cooling(p, key, now) <==> Cooling(f, key, now)
    ensures Cooling(f, key, now) ==> key in f.failures
  {
  }

  /**
   A caller that finds an unfinished refresh of its key joins it, unless the key is cooling down;
   and a caller is refused exactly while its key's recorded failure has not expired.
   */
  lemma {:induction false} CallersJoinOrWait(states: seq<State>, steps: seq<Step>, ttl: real, i: nat, x: nat)
    requires IsRun(states, steps, ttl) && i < |steps| && steps[i].RunStep?
    requires x in states[i].tasks && states[i].tasks[x] == Task(steps[i].key, Running)
    ensures Outcome(states[i], steps[i]) ==
            if Cooling(states[i].flight, steps[i].key, steps[i].now)
            then CoolingDown(states[i].flight.failures[steps[i].key]) else Joined(x)
  {
    RunKeepsInv(states, steps, ttl, i);
    PurgeKeepsOwn(states[i].flight, states[i].tasks, steps[i].key, steps[i].now);
  }

  // ---------- Cool-down over a run ----------

  /** The step records a failure of `key`. */
  predicate Records(s: State, step: Step, key: Key) {
    step.CompleteStep? && step.id in s.tasks && s.tasks[step.id].key == key && s.tasks[step.id].status.RefreshFailed?
  }

  /** The step forgets a failure of `key`, expired or not. */
  predicate Forgets(s: State, step: Step, key: Key) {
    || (step.RunStep? && StaleFor(key, step.key))
    || (step.CompleteStep? && step.id in s.tasks && s.tasks[step.id].key == key
        && !s.tasks[step.id].status.RefreshFailed?)
  }

  /** Step `r` recorded a failure of `key`, and nothing recorded or forgot one since. */
  predicate LastRecorded(states: seq<State>, steps: seq<Step>, key: Key, r: nat, n: nat)
    requires |states| == |steps| + 1 && n <= |steps|
  {
    && r < n && Records(states[r], steps[r], key)
    && forall k :: r < k < n ==> !Records(states[k], steps[k], key) && !Forgets(states[k], steps[k], key)
  }

  /** What step `r` recorded. */
  function RecordedAt(states: seq<State>, steps: seq<Step>, key: Key, r: nat, ttl: real): CachedFailure
    requires |states| == |steps| + 1 && r < |steps| && Records(states[r], steps[r], key)
  {
    CachedFailure(steps[r].now + ttl, states[r].tasks[steps[r].id].status.code)
  }

  function EntryOf(f: Flight, key: Key): Option<CachedFailure> {
    if key in f.failures then Some(f.failures[key]) else None
  }

  /** One step on the entry of `key`: replaced, dropped, kept, or dropped once expired. */
  lemma {:induction false} EntryStep(s: State, step: Step, ttl: real, key: Key)
    requires Enabled(s, step)
    ensures var before, after := EntryOf(s.flight, key), EntryOf(Next(s, step, ttl).flight, key);
            if Records(s, step, key) then
              after == if ttl > 0.0 then Some(CachedFailure(step.now + ttl, s.tasks[step.id].status.code)) else before
            else if Forgets(s, step, key) then after == None
            else after == before || (after == None && before.Some? && before.value.expiresAt <= step.now)
  {
    if step.RunStep? {
      var p := Purge(s.flight, s.tasks, step.key);
      assert EntryOf(p, key) == if StaleFor(key, step.key) then None else EntryOf(s.flight, key);
    }
  }

  /** A call for another token of the account forgets the failure before it expires. */
  lemma {:induction false} OtherTokenLiftsCoolDown(s: State, step: Step, ttl: real, key: Key)
    requires Enabled(s, step) && step.RunStep? && StaleFor(key, step.key)
    ensures key !in Next(s, step, ttl).flight.failures
  {
    assert key !in Purge(s.flight, s.tasks, step.key).failures;
  }

  /** Every entry was recorded by the last such step, and nothing is recorded without a cool-down time. */
  lemma {:induction false} EntryWasRecorded(states: seq<State>, steps: seq<Step>, ttl: real, n: nat, key: Key)
    requires IsRun(states, steps, ttl) && n < |states| && EntryOf(states[n].flight, key).Some?
    ensures ttl > 0.0
    ensures exists r: nat :: LastRecorded(states, steps, key, r, n)
                             && EntryOf(states[n].flight, key).value == RecordedAt(states, steps, key, r, ttl)
    decreases n
  {
    EntryStep(states[n - 1], steps[n - 1], ttl, key);
    hide Next;
    if Records(states[n - 1], steps[n - 1], key) && ttl > 0.0 {
      assert LastRecorded(states, steps, key, n - 1, n);
    } else {
      EntryWasRecorded(states, steps, ttl, n - 1, key);
      var r: nat :| LastRecorded(states, steps, key, r, n - 1)
                    && EntryOf(states[n - 1].flight, key).value == RecordedAt(states, steps, key, r, ttl);
      assert LastRecorded(states, steps, key, r, n);
    }
  }

  /** A recorded failure stays, unless recorded again or forgotten, until a call finds it expired. */
  lemma {:induction false} CoolDownPersists(
    states: seq<State>, steps: seq<Step>, ttl: real, r: nat, n: nat, key: Key)
    requires IsRun(states, steps, ttl) && ttl > 0.0 && n < |states| && LastRecorded(states, steps, key, r, n)
    requires forall k :: r < k < n ==> steps[k].now < steps[r].now + ttl
    ensures EntryOf(states[n].flight, key) == Some(RecordedAt(states, steps, key, r, ttl))
    decreases n
  {
    EntryStep(states[n - 1], steps[n - 1], ttl, key);
    hide Next;
    if r < n - 1 {
      CoolDownPersists(states, steps, ttl, r, n - 1, key);
    }
  }

  /** The failure that step `r` recorded for `key` is still in force at step `i`. */
  ghost predicate InForce(states: seq<State>, steps: seq<Step>, key: Key, r: nat, i: nat, ttl: real)
    requires |states| == |steps| + 1 && i < |steps|
  {
    LastRecorded(states, steps, key, r, i) && steps[i].now < steps[r].now + ttl
  }

  /**
   In every run, for every cool-down time, a call is refused if and only if some earlier step
   recorded a failure of its key, none recorded or forgot one since, and the cool-down from that
   step has not passed; it gets that very failure, and nothing is started.
   */
  lemma {:induction false} RefusedExactlyWhileCoolingDown(states: seq<State>, steps: seq<Step>, ttl: real, i: nat)
    requires IsRun(states, steps, ttl) && i < |steps| && steps[i].RunStep?
    ensures Outcome(states[i], steps[i]).CoolingDown? <==>
            exists r: nat :: InForce(states, steps, steps[i].key, r, i, ttl)
    ensures forall r: nat :: InForce(states, steps, steps[i].key, r, i, ttl) ==>
              Outcome(states[i], steps[i]) == CoolingDown(RecordedAt(states, steps, steps[i].key, r, ttl))
    ensures Outcome(states[i], steps[i]).CoolingDown? ==> states[i + 1].tasks == states[i].tasks
  {
    var key := steps[i].key;
    assert states[i + 1] == Next(states[i], steps[i], ttl);
    hide Outcome;
    if Outcome(states[i], steps[i]).CoolingDown? {
      EntryWasRecorded(states, steps, ttl, i, key);
      var r: nat :| LastRecorded(states, steps, key, r, i)
                    && EntryOf(states[i].flight, key).value == RecordedAt(states, steps, key, r, ttl);
      assert InForce(states, steps, key, r, i, ttl);
    }
    forall r: nat | InForce(states, steps, key, r, i, ttl)
      ensures Outcome(states[i], steps[i]) == CoolingDown(RecordedAt(states, steps, key, r, ttl))
    {
      assert steps[r].now <= steps[i].now;
      forall k | r < k < i ensures steps[k].now < steps[r].now + ttl {
        assert steps[k].now <= steps[i].now;
      }
      CoolDownPersists(states, steps, ttl, r, i, key);
    }
  }
}
