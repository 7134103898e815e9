/**
 The recovery pass of `select_account` in app/core/balancer/logic.py: which accounts may serve a
 request at an instant, and what the pass changes on them.

 Optional floats follow Python's truthiness: a time of 0.0 counts as absent.
 */
module AccountRecovery {
  import opened Options

  datatype Status = Active | RateLimited | QuotaExceeded | Paused | Deactivated

  /**
   The fields of an account that selection reads or writes. `planCredits` is the capacity the plan
   table gives for the account's plan type.
   */
  datatype Account = Account(
    id: string,
    status: Status,
    usedPercent: Option<real>,
    resetAt: Option<real>,
    cooldownUntil: Option<real>,
    secondaryUsedPercent: Option<real>,
    secondaryResetAt: Option<int>,
    lastErrorAt: Option<real>,
    lastSelectedAt: Option<real>,
    errorCount: int,
    capacityCredits: Option<real>,
    planCredits: real,
    healthTier: int)

  datatype Disposition = Skipped | InBackoff | Available

  predicate IsSet(t: Option<real>) {
    t.Some? && t.value != 0.0
  }

  predicate Reached(t: Option<real>, current: real) {
    IsSet(t) && current >= t.value
  }

  function Pow2(n: nat): (r: nat)
    ensures r >= 1
  {
    if n == 0 then 1 else 2 * Pow2(n - 1)
  }

  /** Seconds an account is held back after its latest error. */
  function BackoffSeconds(errorCount: int): (r: int)
    requires errorCount >= 3
    ensures 30 <= r <= 300
  {
    var doubled := 30 * Pow2(errorCount - 3);
    if doubled < 300 then doubled else 300
  }

  predicate HeldBack(a: Account, current: real) {
    a.errorCount >= 3 && IsSet(a.lastErrorAt) && current - a.lastErrorAt.value < BackoffSeconds(a.errorCount) as real
  }

  predicate Blocked(a: Account, current: real) {
    || a.status.Paused? || a.status.Deactivated?
    || ((a.status.RateLimited? || a.status.QuotaExceeded?) && !Reached(a.resetAt, current))
  }

  /** Leaving a limit whose reset time was reached. */
  function Reopened(a: Account): Account {
    match a.status
    case RateLimited => a.(status := Active, errorCount := 0, resetAt := None)
    case QuotaExceeded => a.(status := Active, usedPercent := Some(0.0), resetAt := None)
    case _ => a
  }

  function Cooled(a: Account, current: real): Account {
    if Reached(a.cooldownUntil, current) then a.(cooldownUntil := None, lastErrorAt := None, errorCount := 0) else a
  }

  function Forgiven(a: Account): Account {
    if a.errorCount >= 3 then a.(errorCount := 0, lastErrorAt := None) else a
  }

  /** The account after one pass, and the list the pass puts it on. */
  function Recover(a: Account, current: real): (Account, Disposition) {
    if Blocked(a, current) then (a, Skipped)
    else
      var c := Cooled(Reopened(a), current);
      if IsSet(c.cooldownUntil) then (c, Skipped)
      else if HeldBack(c, current) then (c, InBackoff)
      else (Forgiven(c), Available)
  }

  predicate Eligible(a: Account, current: real) {
    Recover(a, current).1.Available?
  }

  // ---------- What the pass means ----------

  /** The account's errors no longer count, whatever the pass still has to clear. */
  predicate ErrorsSettled(a: Account, current: real) {
    || a.status.RateLimited? || IsSet(a.cooldownUntil) || a.errorCount < 3 || !IsSet(a.lastErrorAt)
    || current >= a.lastErrorAt.value + BackoffSeconds(a.errorCount) as real
  }

  /** Eligibility, stated on the account as it was before the pass. */
  lemma {:induction false} EligibleExactly(a: Account, current: real)
    ensures Eligible(a, current) <==>
            && (a.status.Active? || ((a.status.RateLimited? || a.status.QuotaExceeded?) && Reached(a.resetAt, current)))
            && (IsSet(a.cooldownUntil) ==> current >= a.cooldownUntil.value)
            && ErrorsSettled(a, current)
  {
    hide BackoffSeconds;
  }

  /** An available or held-back account is ACTIVE, with no limit left and no cooldown pending. */
  lemma {:induction false} RecoveredIsActive(a: Account, current: real)
    ensures Recover(a, current).0.id == a.id && Recover(a, current).0.healthTier == a.healthTier
    ensures !Recover(a, current).1.Skipped? ==>
              Recover(a, current).0.status.Active? && !IsSet(Recover(a, current).0.cooldownUntil)
    ensures Recover(a, current).1.InBackoff? ==> HeldBack(Recover(a, current).0, current)
  {
    hide BackoffSeconds;
  }

  /**
   A pass at one instant never changes what a later pass does: recovering in between or not, the
   later pass leaves the same account on the same list. At equal instants this is idempotence.
   */
  lemma {:induction false} RecoverComposes(a: Account, first: real, second: real)
    requires first <= second
    ensures Recover(Recover(a, first).0, second) == Recover(a, second)
  {
    hide BackoffSeconds;
    if !Blocked(a, first) {
      var b := Reopened(a);
    }
  }

  /** An eligible account stays eligible at every later instant while nothing touches it. */
  lemma {:induction false} EligibilityPersists(a: Account, first: real, second: real)
    requires first <= second && Eligible(a, first)
    ensures Eligible(a, second)
  {
    EligibleExactly(a, first);
    EligibleExactly(a, second);
    hide *;
    SettledPersists(a, first, second);
  }

  lemma {:induction false} SettledPersists(a: Account, first: real, second: real)
    requires first <= second
    ensures ErrorsSettled(a, first) ==> ErrorsSettled(a, second)
    ensures Reached(a.resetAt, first) ==> Reached(a.resetAt, second)
  {
    hide BackoffSeconds;
  }

  /**
   Every account that is neither paused nor deactivated, and is ACTIVE or has a reset time, is
   eligible once its reset time, its cooldown and 300 seconds after its last error have passed.
   */
  lemma {:induction false} EligibleEventually(a: Account, current: real)
    requires !a.status.Paused? && !a.status.Deactivated?
    requires a.status.Active? || IsSet(a.resetAt)
    requires IsSet(a.resetAt) ==> current >= a.resetAt.value
    requires IsSet(a.cooldownUntil) ==> current >= a.cooldownUntil.value
    requires IsSet(a.lastErrorAt) ==> current >= a.lastErrorAt.value + 300.0
    ensures Eligible(a, current)
  {
    EligibleExactly(a, current);
  }

  /** The reset time is needed: a limited account without one is never eligible. */
  lemma {:induction false} LimitedForever(a: Account, current: real)
    requires (a.status.RateLimited? || a.status.QuotaExceeded?) && !IsSet(a.resetAt)
    ensures Recover(a, current) == (a, Skipped)
  {
  }

  // ---------- The account object ----------

  class AccountState {
    const accountId: string
    var status: Status
    var usedPercent: Option<real>
    var resetAt: Option<real>
    var cooldownUntil: Option<real>
    var secondaryUsedPercent: Option<real>
    var secondaryResetAt: Option<int>
    var lastErrorAt: Option<real>
    var lastSelectedAt: Option<real>
    var errorCount: int
    var capacityCredits: Option<real>
    var planCredits: real
    var healthTier: int

    constructor (a: Account)
      ensures View() == a
    {
      accountId := a.id;
      status := a.status;
      usedPercent := a.usedPercent;
      resetAt := a.resetAt;
      cooldownUntil := a.cooldownUntil;
      secondaryUsedPercent := a.secondaryUsedPercent;
      secondaryResetAt := a.secondaryResetAt;
      lastErrorAt := a.lastErrorAt;
      lastSelectedAt := a.lastSelectedAt;
      errorCount := a.errorCount;
      capacityCredits := a.capacityCredits;
      planCredits := a.planCredits;
      healthTier := a.healthTier;
    }

    function View(): Account
      reads this
    {
      Account(accountId, status, usedPercent, resetAt, cooldownUntil, secondaryUsedPercent, secondaryResetAt,
              lastErrorAt, lastSelectedAt, errorCount, capacityCredits, planCredits, healthTier)
    }

    /** The body of the selection loop for one account. */
    method RecoverAt(current: real) returns (d: Disposition)
      modifies this
      ensures (View(), d) == Recover(old(View()), current)
    {
      hide BackoffSeconds;
      if status == Deactivated || status == Paused {
        return Skipped;
      }
      if status == RateLimited {
        if IsSet(resetAt) && current >= resetAt.value {
          status, errorCount, resetAt := Active, 0, None;
        } else {
          return Skipped;
        }
      }
      if status == QuotaExceeded {
        if IsSet(resetAt) && current >= resetAt.value {
          status, usedPercent, resetAt := Active, Some(0.0), None;
        } else {
          return Skipped;
        }
      }
      if IsSet(cooldownUntil) && current >= cooldownUntil.value {
        cooldownUntil, lastErrorAt, errorCount := None, None, 0;
      }
      if IsSet(cooldownUntil) && current < cooldownUntil.value {
        return Skipped;
      }
      if errorCount >= 3 {
        var backoff := BackoffSeconds(errorCount);
        if IsSet(lastErrorAt) && current - lastErrorAt.value < backoff as real {
          return InBackoff;
        }
        errorCount, lastErrorAt := 0, None;
      }
      return Available;
    }
  }
}
