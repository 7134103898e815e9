/**
 The circuit breaker of app/core/resilience/circuit_breaker.py, as an object and as a state
 machine over interleaved calls. A call checks in, runs, records its outcome and, if it was a
 half-open probe, releases the probe; every lock-protected block is one step. The service
 context manager in app/core/clients/proxy.py goes through the same steps.
 */
module CircuitBreaker {
  import opened Options

  datatype CircuitState = Closed | Open | HalfOpen

  datatype Config = Config(failureThreshold: int, recoveryTimeout: real, successThreshold: int)

  /** `state` is the stored state, which is never HalfOpen. */
  datatype Breaker = Breaker(
    state: CircuitState, failureCount: nat, successCount: nat, lastFailure: Option<real>, probeInFlight: bool)

  const INITIAL := Breaker(Closed, 0, 0, None, false)

  datatype Failure =
    | HttpStatus(status: int)     // ClientResponseError
    | Timeout                     // asyncio or server timeout
    | WithStatusCode(code: int)   // any exception carrying `status_code`
    | OtherFailure

  predicate IsServerError(e: Failure) {
    match e
    case HttpStatus(status) => status >= 500
    case Timeout => true
    case WithStatusCode(code) => code >= 500
    case OtherFailure => true
  }

  /** The recovery timeout has passed since the last failure. */
  predicate Recovered(cfg: Config, b: Breaker, now: real) {
    b.lastFailure.Some? && now - b.lastFailure.value >= cfg.recoveryTimeout
  }

  function Observed(cfg: Config, b: Breaker, now: real): CircuitState {
    if b.state == Open && Recovered(cfg, b, now) then HalfOpen else b.state
  }

  datatype Admission = Rejected | Admitted(breaker: Breaker, isProbe: bool)

  function PreCallCheck(cfg: Config, b: Breaker, now: real): Admission {
    match Observed(cfg, b, now)
    case Open => Rejected
    case HalfOpen => if b.probeInFlight then Rejected else Admitted(b.(probeInFlight := true), true)
    case Closed => Admitted(b, false)
  }

  function Release(b: Breaker): Breaker {
    b.(probeInFlight := false)
  }

  function RecordSuccess(cfg: Config, b: Breaker, now: real): Breaker {
    match Observed(cfg, b, now)
    case HalfOpen =>
      if b.successCount + 1 >= cfg.successThreshold then b.(state := Closed, failureCount := 0, successCount := 0)
      else b.(successCount := b.successCount + 1)
    case Closed => b.(failureCount := 0)
    case Open => b
  }

  function RecordFailure(cfg: Config, b: Breaker, e: Failure, now: real): Breaker {
    if !IsServerError(e) then b
    else b.(failureCount := b.failureCount + 1, lastFailure := Some(now), successCount := 0,
            state := if b.failureCount + 1 >= cfg.failureThreshold then Open else b.state)
  }

  // ---------- The object ----------

  class Circuit {
    const cfg: Config
    var state: CircuitState
    var failureCount: nat
    var successCount: nat
    var lastFailure: Option<real>
    var probeInFlight: bool

    constructor (cfg: Config)
      ensures this.cfg == cfg && View() == INITIAL
    {
      this.cfg := cfg;
      state, failureCount, successCount, lastFailure, probeInFlight := Closed, 0, 0, None, false;
    }

    ghost function View(): Breaker
      reads this
    {
      Breaker(state, failureCount, successCount, lastFailure, probeInFlight)
    }

    method CurrentState(now: real) returns (s: CircuitState)
      ensures s == Observed(cfg, View(), now)
    {
      if state == Open && lastFailure.Some? && now - lastFailure.value >= cfg.recoveryTimeout {
        return HalfOpen;
      }
      return state;
    }

    /** `admitted` is false where the source raises `CircuitBreakerOpenError`. */
    method CheckIn(now: real) returns (admitted: bool, isProbe: bool)
      modifies this`probeInFlight
      ensures match PreCallCheck(cfg, old(View()), now)
              case Rejected => !admitted && View() == old(View())
              case Admitted(b, p) => admitted && isProbe == p && View() == b
    {
      var current := CurrentState(now);
      if current == Open {
        return false, false;
      }
      if current == HalfOpen {
        if probeInFlight {
          return false, false;
        }
        probeInFlight := true;
        return true, true;
      }
      return true, false;
    }

    method ReleaseProbe()
      modifies this`probeInFlight
      ensures View() == Release(old(View()))
    {
      probeInFlight := false;
    }

    method Succeeded(now: real)
      modifies this
      ensures View() == RecordSuccess(cfg, old(View()), now)
    {
      var current := CurrentState(now);
      if current == HalfOpen {
        successCount := successCount + 1;
        if successCount >= cfg.successThreshold {
          state, failureCount, successCount := Closed, 0, 0;
        }
      } else if current == Closed {
        if failureCount > 0 {
          failureCount := 0;
        }
      }
    }

    method FailedWith(e: Failure, now: real)
      modifies this
      ensures View() == RecordFailure(cfg, old(View()), e, now)
    {
      if !IsServerError(e) {
        return;
      }
      failureCount := failureCount + 1;
      lastFailure, successCount := Some(now), 0;
      if failureCount >= cfg.failureThreshold {
        state := Open;
      }
    }
  }

  // ---------- Interleaved calls ----------

  datatype Phase = Running | Releasing

  datatype Call = Call(isProbe: bool, phase: Phase)

  datatype System = System(breaker: Breaker, calls: map<nat, Call>)

  datatype Outcome = Returned | Raised(failure: Failure) | Cancelled

  datatype Step =
    | Begin(id: nat, now: real)
    | Finish(id: nat, outcome: Outcome, now: real)
    | ReleaseStep(id: nat, now: real)

  predicate Enabled(s: System, step: Step) {
    match step
    case Begin(id, _) => id !in s.calls
    case Finish(id, _, _) => id in s.calls && s.calls[id].phase == Running
    case ReleaseStep(id, _) => id in s.calls && s.calls[id].phase == Releasing
  }

  function Record(cfg: Config, b: Breaker, outcome: Outcome, now: real): Breaker {
    match outcome
    case Returned => RecordSuccess(cfg, b, now)
    case Raised(e) => RecordFailure(cfg, b, e, now)
    case Cancelled => b
  }

  function Next(cfg: Config, s: System, step: Step): System
    requires Enabled(s, step)
  {
    match step
    case Begin(id, now) =>
      (match PreCallCheck(cfg, s.breaker, now)
       case Rejected => s
       case Admitted(b, isProbe) => System(b, s.calls[id := Call(isProbe, Running)]))
    case Finish(id, outcome, now) =>
      var b := Record(cfg, s.breaker, outcome, now);
      if s.calls[id].isProbe then System(b, s.calls[id := Call(true, Releasing)])
      else System(b, s.calls - {id})
    case ReleaseStep(id, _) => System(Release(s.breaker), s.calls - {id})
  }

  predicate IsRun(cfg: Config, states: seq<System>, steps: seq<Step>) {
    && |states| == |steps| + 1
    && states[0] == System(INITIAL, map[])
    && (forall i :: 0 <= i < |steps| ==> Enabled(states[i], steps[i]) && states[i + 1] == Next(cfg, states[i], steps[i]))
    && forall i, j :: 0 <= i <= j < |steps| ==> steps[i].now <= steps[j].now
  }

  /** A failure with a status below 500: the caller's fault, not the server's. */
  predicate ClientError(e: Failure) {
    (e.HttpStatus? && e.status < 500) || (e.WithStatusCode? && e.code < 500)
  }

  /** The call of the step fails, and not through its caller's fault. */
  predicate Fails(step: Step) {
    step.Finish? && step.outcome.Raised? && !ClientError(step.outcome.failure)
  }

  predicate Succeeds(step: Step) {
    step.Finish? && step.outcome.Returned?
  }

  // ---------- The invariant ----------

  ghost predicate Inv(s: System) {
    && s.breaker.state != HalfOpen
    && (s.breaker.state == Open ==> s.breaker.lastFailure.Some?)
    && (s.breaker.state == Closed ==> s.breaker.successCount == 0)
    && (s.breaker.probeInFlight <==> exists id :: id in s.calls && s.calls[id].isProbe)
    && (forall x, y :: x in s.calls && y in s.calls && s.calls[x].isProbe && s.calls[y].isProbe ==> x == y)
    && forall id :: id in s.calls && s.calls[id].phase == Releasing ==> s.calls[id].isProbe
  }

  lemma {:induction false} StepKeepsInv(cfg: Config, s: System, step: Step)
    requires Inv(s) && Enabled(s, step)
    ensures Inv(Next(cfg, s, step))
  {
    hide Recovered;
    var s' := Next(cfg, s, step);
    match step
    case Begin(id, now) =>
      if s'.calls != s.calls {
        assert forall x :: x in s'.calls ==> x == id || (x in s.calls && s'.calls[x] == s.calls[x]);
        assert s'.calls[id].isProbe ==> s'.breaker.probeInFlight;
        assert forall x :: x in s.calls ==> x in s'.calls && s'.calls[x] == s.calls[x];
      }
    case Finish(id, outcome, now) =>
      assert s'.breaker.probeInFlight == s.breaker.probeInFlight;
      assert forall x :: x in s'.calls ==> x in s.calls && s'.calls[x].isProbe == s.calls[x].isProbe;
      assert forall x :: x in s.calls && s.calls[x].isProbe ==> x in s'.calls && s'.calls[x].isProbe;
    case ReleaseStep(id, _) =>
      assert forall x :: x in s'.calls ==> x in s.calls && x != id && s'.calls[x] == s.calls[x];
  }

  lemma {:induction false} RunKeepsInv(cfg: Config, states: seq<System>, steps: seq<Step>, i: nat)
    requires IsRun(cfg, states, steps) && i < |states|
    ensures Inv(states[i])
    decreases i
  {
    if i > 0 {
      RunKeepsInv(cfg, states, steps, i - 1);
      StepKeepsInv(cfg, states[i - 1], steps[i - 1]);
    }
  }

  /** In every run at most one half-open probe is outstanding, and the flag says whether there is one. */
  lemma {:induction false} AtMostOneProbe(cfg: Config, states: seq<System>, steps: seq<Step>, i: nat, x: nat, y: nat)
    requires IsRun(cfg, states, steps) && i < |states|
    requires x in states[i].calls && y in states[i].calls && states[i].calls[x].isProbe && states[i].calls[y].isProbe
    ensures x == y && states[i].breaker.probeInFlight
  {
    RunKeepsInv(cfg, states, steps, i);
  }

  // ---------- Client errors ----------

  /** Every failure of the first `i` steps is a client error. */
  predicate OnlyClientErrors(steps: seq<Step>, i: nat)
    requires i <= |steps|
  {
    forall k :: 0 <= k < i && steps[k].Finish? && steps[k].outcome.Raised? ==> ClientError(steps[k].outcome.failure)
  }

  /** However many client errors there are, the breaker stays as it started, and so admits every call. */
  lemma {:induction false} ClientErrorsNeverCount(cfg: Config, states: seq<System>, steps: seq<Step>, i: nat)
    requires IsRun(cfg, states, steps) && i < |states| && OnlyClientErrors(steps, i)
    ensures states[i].breaker == Breaker(Closed, 0, 0, None, false)
    ensures forall now :: PreCallCheck(cfg, states[i].breaker, now).Admitted?
    decreases i
  {
    if i > 0 {
      ClientErrorsNeverCount(cfg, states, steps, i - 1);
      RunKeepsInv(cfg, states, steps, i - 1);
    }
  }

  // ---------- Last failure ----------

  /** `f` is the latest step before `i` that recorded a server failure. */
  predicate LatestFailure(steps: seq<Step>, i: nat, f: nat)
    requires i <= |steps|
  {
    f < i && Fails(steps[f]) && forall k :: f < k < i ==> !Fails(steps[k])
  }

  lemma {:induction false} StepLastFailure(cfg: Config, s: System, step: Step)
    requires Enabled(s, step)
    ensures Next(cfg, s, step).breaker.lastFailure == if Fails(step) then Some(step.now) else s.breaker.lastFailure
  {
    hide Recovered;
  }

  lemma {:induction false} LastFailureIsLatest(cfg: Config, states: seq<System>, steps: seq<Step>, i: nat)
    requires IsRun(cfg, states, steps) && i < |states|
    ensures states[i].breaker.lastFailure.None? ==> forall k :: 0 <= k < i ==> !Fails(steps[k])
    ensures states[i].breaker.lastFailure.Some? ==>
              exists f: nat :: LatestFailure(steps, i, f) && states[i].breaker.lastFailure == Some(steps[f].now)
    decreases i
  {
    if i > 0 {
      LastFailureIsLatest(cfg, states, steps, i - 1);
      StepLastFailure(cfg, states[i - 1], steps[i - 1]);
      if Fails(steps[i - 1]) {
        assert LatestFailure(steps, i, i - 1);
      } else if states[i].breaker.lastFailure.Some? {
        var f: nat :| LatestFailure(steps, i - 1, f) && states[i - 1].breaker.lastFailure == Some(steps[f].now);
        assert LatestFailure(steps, i, f);
      }
    }
  }

  /**
   Nothing is admitted while the circuit is open and some recorded server failure lies less than
   the recovery timeout back; and whatever is admitted while open is a probe.
   */
  lemma {:induction false} OpenCircuitAdmitsOnlyProbes(cfg: Config, states: seq<System>, steps: seq<Step>, i: nat,
                                                       f: nat)
    requires IsRun(cfg, states, steps) && i < |steps|
    requires steps[i].Begin? && states[i].breaker.state == Open && steps[i].id in states[i + 1].calls
    requires f < i && Fails(steps[f])
    ensures steps[i].now - steps[f].now >= cfg.recoveryTimeout
    ensures states[i + 1].calls[steps[i].id].isProbe
  {
    RunKeepsInv(cfg, states, steps, i);
    LastFailureIsLatest(cfg, states, steps, i);
    var g: nat :| LatestFailure(steps, i, g) && states[i].breaker.lastFailure == Some(steps[g].now);
    assert f <= g;
    assert states[i + 1] == Next(cfg, states[i], steps[i]);
  }

  // ---------- Opening ----------

  /** Server failures recorded by the steps from `from` up to `upTo`. */
  function FailureTotal(steps: seq<Step>, from: nat, upTo: nat): nat
    requires from <= upTo && upTo <= |steps|
    decreases upTo
  {
    if from == upTo then 0 else FailureTotal(steps, from, upTo - 1) + if Fails(steps[upTo - 1]) then 1 else 0
  }

  /** From `from` to `upTo` the circuit stays closed and no success is recorded. */
  ghost predicate ClosedWithoutSuccess(states: seq<System>, steps: seq<Step>, from: nat, upTo: nat)
    requires |states| == |steps| + 1 && upTo <= |steps|
  {
    forall k :: from <= k < upTo ==> states[k].breaker.state == Closed && !Succeeds(steps[k])
  }

  lemma {:induction false} ClosedStep(cfg: Config, s: System, step: Step)
    requires Inv(s) && Enabled(s, step) && s.breaker.state == Closed
    ensures var b, b' := s.breaker, Next(cfg, s, step).breaker;
            && (Fails(step) ==> b'.failureCount == b.failureCount + 1 && b'.successCount == 0
                                && (b'.state == Open <==> b.failureCount + 1 >= cfg.failureThreshold))
            && (Succeeds(step) ==> b'.state == Closed && b'.failureCount == 0)
            && (!Fails(step) && !Succeeds(step) ==> b'.state == Closed && b'.failureCount == b.failureCount)
  {
    hide Recovered;
  }

  lemma {:induction false} OpenStep(cfg: Config, s: System, step: Step)
    requires Inv(s) && Enabled(s, step) && s.breaker.state == Open
    ensures var b, b' := s.breaker, Next(cfg, s, step).breaker;
            && (Fails(step) ==> b'.state == Open && b'.successCount == 0)
            && (b'.state == Closed <==> Succeeds(step) && Recovered(cfg, b, step.now)
                                        && b.successCount + 1 >= cfg.successThreshold)
            && (b'.state == Closed ==> b'.failureCount == 0)
            && (b'.state == Open && Succeeds(step) && Recovered(cfg, b, step.now) ==>
                  b'.successCount == b.successCount + 1)
            && (b'.state == Open && !Fails(step) && !(Succeeds(step) && Recovered(cfg, b, step.now)) ==>
                  b'.successCount == b.successCount)
  {
    hide Recovered;
  }

  /** Where the failures now counted began. */
  lemma {:induction false} ClosedWindow(cfg: Config, states: seq<System>, steps: seq<Step>, i: nat) returns (from: nat)
    requires IsRun(cfg, states, steps) && i < |states| && states[i].breaker.state == Closed
    ensures from <= i && ClosedWithoutSuccess(states, steps, from, i)
    ensures FailureTotal(steps, from, i) == states[i].breaker.failureCount
    decreases i
  {
    from := i;
    if i > 0 {
      RunKeepsInv(cfg, states, steps, i - 1);
      if states[i - 1].breaker.state == Closed {
        ClosedStep(cfg, states[i - 1], steps[i - 1]);
        if !Succeeds(steps[i - 1]) {
          from := ClosedWindow(cfg, states, steps, i - 1);
        }
      } else {
        OpenStep(cfg, states[i - 1], steps[i - 1]);
      }
    }
  }

  /** No window of failures without a success holds more of them than are counted. */
  lemma {:induction false} ClosedWindowIsCounted(cfg: Config, states: seq<System>, steps: seq<Step>, from: nat, i: nat)
    requires IsRun(cfg, states, steps) && from <= i < |states| && states[i].breaker.state == Closed
    requires ClosedWithoutSuccess(states, steps, from, i)
    ensures FailureTotal(steps, from, i) <= states[i].breaker.failureCount
    decreases i
  {
    if from < i {
      RunKeepsInv(cfg, states, steps, i - 1);
      ClosedStep(cfg, states[i - 1], steps[i - 1]);
      ClosedWindowIsCounted(cfg, states, steps, from, i - 1);
    }
  }

  /** Step `i` completes `failureThreshold` failures in one closed period without a success between them. */
  ghost predicate ReachesFailureThreshold(cfg: Config, states: seq<System>, steps: seq<Step>, from: nat, i: nat)
    requires |states| == |steps| + 1 && i < |steps|
  {
    && from <= i && ClosedWithoutSuccess(states, steps, from, i)
    && FailureTotal(steps, from, i + 1) >= cfg.failureThreshold
  }

  /**
   A closed circuit opens if and only if a server failure is recorded that completes
   `failureThreshold` of them, counted over any stretch of the closed period without a success.
   */
  lemma {:induction false} OpensExactlyAtThreshold(cfg: Config, states: seq<System>, steps: seq<Step>, i: nat)
    requires IsRun(cfg, states, steps) && i < |steps| && states[i].breaker.state == Closed
    ensures states[i + 1].breaker.state == Open <==>
            Fails(steps[i]) && exists from: nat :: ReachesFailureThreshold(cfg, states, steps, from, i)
  {
    RunKeepsInv(cfg, states, steps, i);
    ClosedStep(cfg, states[i], steps[i]);
    var counted := ClosedWindow(cfg, states, steps, i);
    if states[i + 1].breaker.state == Open {
      assert ReachesFailureThreshold(cfg, states, steps, counted, i);
    }
    if from: nat :| Fails(steps[i]) && ReachesFailureThreshold(cfg, states, steps, from, i) {
      ClosedWindowIsCounted(cfg, states, steps, from, i);
    }
  }

  // ---------- Closing ----------

  /** Step `k` records a success, later than every earlier failure by the recovery timeout. */
  ghost predicate LateSuccess(cfg: Config, steps: seq<Step>, k: nat)
    requires k < |steps|
  {
    Succeeds(steps[k]) && forall f :: 0 <= f < k && Fails(steps[f]) ==> steps[k].now - steps[f].now >= cfg.recoveryTimeout
  }

  ghost function LateSuccessTotal(cfg: Config, steps: seq<Step>, from: nat, upTo: nat): nat
    requires from <= upTo && upTo <= |steps|
    decreases upTo
  {
    if from == upTo then 0
    else LateSuccessTotal(cfg, steps, from, upTo - 1) + if LateSuccess(cfg, steps, upTo - 1) then 1 else 0
  }

  /** From `from` to `upTo` the circuit stays open and no server failure is recorded. */
  ghost predicate OpenWithoutFailure(states: seq<System>, steps: seq<Step>, from: nat, upTo: nat)
    requires |states| == |steps| + 1 && upTo <= |steps|
  {
    forall k :: from <= k < upTo ==> states[k].breaker.state == Open && !Fails(steps[k])
  }

  /** While open, the recorded failure time decides for all earlier failures. */
  lemma {:induction false} RecoveredExactly(cfg: Config, states: seq<System>, steps: seq<Step>, k: nat)
    requires IsRun(cfg, states, steps) && k < |steps| && states[k].breaker.state == Open
    ensures Succeeds(steps[k]) && Recovered(cfg, states[k].breaker, steps[k].now) <==> LateSuccess(cfg, steps, k)
  {
    RunKeepsInv(cfg, states, steps, k);
    LastFailureIsLatest(cfg, states, steps, k);
    var g: nat :| LatestFailure(steps, k, g) && states[k].breaker.lastFailure == Some(steps[g].now);
    forall f | 0 <= f < k && Fails(steps[f]) ensures steps[f].now <= steps[g].now {
      assert f <= g;
    }
  }

  /** Where the late successes now counted began. */
  lemma {:induction false} OpenWindow(cfg: Config, states: seq<System>, steps: seq<Step>, i: nat) returns (from: nat)
    requires IsRun(cfg, states, steps) && i < |states| && states[i].breaker.state == Open
    ensures from <= i && OpenWithoutFailure(states, steps, from, i)
    ensures LateSuccessTotal(cfg, steps, from, i) == states[i].breaker.successCount
    decreases i
  {
    from := i;
    hide Recovered;
    RunKeepsInv(cfg, states, steps, i - 1);
    if states[i - 1].breaker.state == Open {
      OpenStep(cfg, states[i - 1], steps[i - 1]);
      RecoveredExactly(cfg, states, steps, i - 1);
      hide LateSuccess;
      if !Fails(steps[i - 1]) {
        from := OpenWindow(cfg, states, steps, i - 1);
      }
    } else {
      ClosedStep(cfg, states[i - 1], steps[i - 1]);
    }
  }

  /** No window of late successes without a failure holds more of them than are counted. */
  lemma {:induction false} OpenWindowIsCounted(cfg: Config, states: seq<System>, steps: seq<Step>, from: nat, i: nat)
    requires IsRun(cfg, states, steps) && from <= i < |states| && states[i].breaker.state == Open
    requires OpenWithoutFailure(states, steps, from, i)
    ensures LateSuccessTotal(cfg, steps, from, i) <= states[i].breaker.successCount
    decreases i
  {
    if from < i {
      hide Recovered;
      RunKeepsInv(cfg, states, steps, i - 1);
      OpenStep(cfg, states[i - 1], steps[i - 1]);
      RecoveredExactly(cfg, states, steps, i - 1);
      hide LateSuccess;
      OpenWindowIsCounted(cfg, states, steps, from, i - 1);
    }
  }

  /** Step `i` completes `successThreshold` late successes in one open period without a failure between them. */
  ghost predicate ReachesSuccessThreshold(cfg: Config, states: seq<System>, steps: seq<Step>, from: nat, i: nat)
    requires |states| == |steps| + 1 && i < |steps|
  {
    && from <= i && OpenWithoutFailure(states, steps, from, i)
    && LateSuccessTotal(cfg, steps, from, i + 1) >= cfg.successThreshold
  }

  /**
   An open circuit closes if and only if a success is recorded, later than every failure by the
   recovery timeout, that completes `successThreshold` such successes over any stretch of the open
   period without a server failure.
   */
  lemma {:induction false} ClosesExactlyAtThreshold(cfg: Config, states: seq<System>, steps: seq<Step>, i: nat)
    requires IsRun(cfg, states, steps) && i < |steps| && states[i].breaker.state == Open
    ensures states[i + 1].breaker.state == Closed <==>
            LateSuccess(cfg, steps, i) && exists from: nat :: ReachesSuccessThreshold(cfg, states, steps, from, i)
  {
    hide Recovered;
    RunKeepsInv(cfg, states, steps, i);
    OpenStep(cfg, states[i], steps[i]);
    RecoveredExactly(cfg, states, steps, i);
    hide LateSuccess;
    var counted := OpenWindow(cfg, states, steps, i);
    if states[i + 1].breaker.state == Closed {
      assert ReachesSuccessThreshold(cfg, states, steps, counted, i);
    }
    if from: nat :| LateSuccess(cfg, steps, i) && ReachesSuccessThreshold(cfg, states, steps, from, i) {
      OpenWindowIsCounted(cfg, states, steps, from, i);
    }
  }
}
