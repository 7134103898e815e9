/**
 What each routing strategy of app/core/balancer/logic.py prefers, stated on the fields of the
 accounts, and what the recovery pass leaves in those fields.
 */
module AccountPolicy {
  import opened Options
  import opened AccountRecovery
  import opened AccountChoice
  import opened AccountSelection
  import Ordering

  // ---------- Preferences ----------

  /** Secondary usage, else primary usage, else none. */
  function Usage(a: Account): real {
    match (a.secondaryUsedPercent, a.usedPercent)
    case (Some(secondary), _) => secondary
    case (None, Some(primary)) => primary
    case (None, None) => 0.0
  }

  function OwnUsage(a: Account): real {
    match a.usedPercent
    case Some(primary) => primary
    case None => 0.0
  }

  function LastChosen(a: Account): real {
    match a.lastSelectedAt
    case Some(t) => t
    case None => 0.0
  }

  /** Selected longer ago, then by id. */
  predicate LessRecent(a: Account, b: Account) {
    LastChosen(a) < LastChosen(b) || (LastChosen(a) == LastChosen(b) && Ordering.Less(a.id, b.id))
  }

  /** Less secondary usage, then less primary usage, then selected longer ago, then by id. */
  predicate LessUsed(a: Account, b: Account) {
    || Usage(a) < Usage(b)
    || (Usage(a) == Usage(b) && OwnUsage(a) < OwnUsage(b))
    || (Usage(a) == Usage(b) && OwnUsage(a) == OwnUsage(b) && LessRecent(a, b))
  }

  /** The account's secondary window resets within day `d` from now: 0 when it is due, 10000 when unknown. */
  predicate ResetsOnDay(a: Account, current: real, d: int) {
    match a.secondaryResetAt
    case None => d == 10000
    case Some(t) =>
      && d >= 0 && t as real - current < (d + 1) as real * 86400.0
      && (d > 0 ==> d as real * 86400.0 <= t as real - current)
  }

  /** Its reset falls on an earlier day, or on the same one and it is less used. */
  ghost predicate ResetsFirst(a: Account, b: Account, current: real) {
    exists d, e :: ResetsOnDay(a, current, d) && ResetsOnDay(b, current, e) && (d < e || (d == e && LessUsed(a, b)))
  }

  /** What is left of the secondary window: nothing without capacity or once it is all used. */
  function Credits(a: Account): real {
    var capacity := if a.capacityCredits.Some? then a.capacityCredits.value else a.planCredits;
    if capacity <= 0.0 || Usage(a) >= 100.0 then 0.0 else capacity * (1.0 - Usage(a) / 100.0)
  }

  predicate MoreCredits(a: Account, b: Account) {
    Credits(a) > Credits(b) || (Credits(a) == Credits(b) && LessUsed(a, b))
  }

  // ---------- The keys say just that ----------

  lemma {:induction false} DayOfReset(a: Account, current: real, d: int)
    ensures ResetsOnDay(a, current, d) <==> d == ResetBucketDays(a, current)
  {
    if a.secondaryResetAt.Some? {
      var away := a.secondaryResetAt.value as real - current;
      var q := (away / 86400.0).Floor;
      assert q as real <= away / 86400.0 < (q + 1) as real;
      assert q as real * 86400.0 <= away < (q + 1) as real * 86400.0;
      DayIsUnique(away, q, d);
    }
  }

  lemma {:induction false} DayIsUnique(away: real, q: int, d: int)
    requires q as real * 86400.0 <= away < (q + 1) as real * 86400.0
    ensures d >= 0 && away < (d + 1) as real * 86400.0 && (d > 0 ==> d as real * 86400.0 <= away) <==>
            d == if q < 0 then 0 else q
  {
  }

  lemma {:induction false} Scaled(capacity: real, share: real)
    ensures capacity > 0.0 && share > 0.0 ==> capacity * share > 0.0
    ensures capacity <= 0.0 && share >= 0.0 ==> capacity * share <= 0.0
    ensures capacity * 0.0 == 0.0
  {
  }

  lemma {:induction false} CreditsAreRemaining(a: Account)
    ensures Credits(a) == Remaining(a)
  {
    var capacity := if a.capacityCredits.Some? then a.capacityCredits.value else a.planCredits;
    Scaled(capacity, 1.0 - (if Usage(a) < 100.0 then Usage(a) else 100.0) / 100.0);
  }

  lemma {:induction false} KeysMean(a: Account, b: Account, current: real)
    ensures Before(RoundRobinKey, a, b, current) <==> LessRecent(a, b)
    ensures Before(UsageKey, a, b, current) <==> LessUsed(a, b)
    ensures Before(ResetFirstKey, a, b, current) <==> ResetsFirst(a, b, current)
    ensures Before(ProbeKey, a, b, current) <==> MoreCredits(a, b)
  {
    CreditsAreRemaining(a);
    CreditsAreRemaining(b);
    hide Credits;
    hide Remaining;
    forall x: Account, d {
      DayOfReset(x, current, d);
    }
    hide ResetsOnDay;
    hide ResetBucketDays;
    hide Ordering.Less;
    assert ResetsOnDay(a, current, ResetBucketDays(a, current)) && ResetsOnDay(b, current, ResetBucketDays(b, current));
  }

  // ---------- What is chosen ----------

  /** No account of the pool resets on an earlier day. */
  ghost predicate ResetsEarliest(m: Account, pool: seq<Account>, current: real) {
    forall x, d, e :: x in pool && ResetsOnDay(m, current, d) && ResetsOnDay(x, current, e) ==> d <= e
  }

  /** The pool a capacity-weighted choice is made from. */
  ghost predicate Considered(x: Account, pool: seq<Account>, current: real, policy: Policy) {
    x in pool && (policy.preferEarlierReset ==> ResetsEarliest(x, pool, current))
  }

  lemma {:induction false} ConsideredExactly(pool: seq<Account>, current: real, policy: Policy, x: Account)
    requires pool != [] && policy.strategy.CapacityWeighted?
    ensures x in Candidates(pool, current, policy) <==> Considered(x, pool, current, policy)
  {
    if policy.preferEarlierReset {
      var least := EarliestBucket(pool, current);
      EarliestBucketLeast(pool, current);
      KeepMembers(pool, BucketIs(least, current), x);
      forall y, d {
        DayOfReset(y, current, d);
      }
      hide ResetsOnDay;
      hide ResetBucketDays;
      hide EarliestBucket;
      var first :| first in pool && least == ResetBucketDays(first, current);
      if Considered(x, pool, current, policy) {
        assert ResetsOnDay(x, current, ResetBucketDays(x, current)) && ResetsOnDay(first, current, least);
      }
    }
  }

  /** The account chosen from a pool by a strategy that does not draw, stated on the fields. */
  ghost predicate Preferred(m: Account, pool: seq<Account>, current: real, policy: Policy) {
    match policy.strategy
    case RoundRobin => m in pool && forall x :: x in pool ==> !LessRecent(x, m)
    case UsageWeighted =>
      && m in pool
      && forall x :: x in pool ==> if policy.preferEarlierReset then !ResetsFirst(x, m, current) else !LessUsed(x, m)
    case CapacityWeighted =>
      && Considered(m, pool, current, policy)
      && forall x :: Considered(x, pool, current, policy) ==>
           if policy.deterministicProbe then !MoreCredits(x, m) else !LessUsed(x, m)
  }

  lemma {:induction false} LeastIsPreferred(m: Account, pool: seq<Account>, current: real, policy: Policy)
    requires pool != []
    requires var kind := if KeyFor(policy).Some? then KeyFor(policy).value else UsageKey;
             IsLeast(m, Candidates(pool, current, policy), kind, current)
    ensures Preferred(m, pool, current, policy)
  {
    forall x {
      KeysMean(x, m, current);
    }
    if policy.strategy.CapacityWeighted? {
      forall x {
        ConsideredExactly(pool, current, policy, x);
      }
      hide Candidates;
    }
    hide Before;
    hide Considered;
    hide LessUsed;
    hide LessRecent;
    hide MoreCredits;
    hide ResetsFirst;
  }

  /** The only strategy that chooses at random. */
  predicate Draws(policy: Policy) {
    policy.strategy.CapacityWeighted? && !policy.deterministicProbe
  }

  ghost predicate OutOfCredits(pool: seq<Account>, current: real, policy: Policy) {
    forall x :: Considered(x, pool, current, policy) ==> Credits(x) == 0.0
  }

  lemma {:induction false} OutOfCreditsExactly(pool: seq<Account>, current: real, policy: Policy)
    requires pool != [] && policy.strategy.CapacityWeighted?
    ensures OutOfCredits(pool, current, policy) <==> TotalCredits(Candidates(pool, current, policy)) <= 0.0
  {
    ExhaustedExactly(Candidates(pool, current, policy));
    forall x ensures x in Candidates(pool, current, policy) <==> Considered(x, pool, current, policy)
             ensures Credits(x) == Remaining(x) {
      CreditsAreRemaining(x);
      ConsideredExactly(pool, current, policy, x);
    }
    hide Candidates;
    hide Considered;
    hide Credits;
    hide Remaining;
    hide TotalCredits;
  }

  /** The choice among a pool, for a strategy that does not draw or has nothing to draw from. */
  lemma {:induction false} ChoiceIsPreferred(pool: seq<Account>, current: real, policy: Policy, draw: real)
    requires pool != [] && (!Draws(policy) || OutOfCredits(pool, current, policy))
    ensures Preferred(Choice(pool, current, policy, draw), pool, current, policy)
  {
    CandidatesExist(pool, current, policy);
    var candidates := Candidates(pool, current, policy);
    var kind := if KeyFor(policy).Some? then KeyFor(policy).value else UsageKey;
    FirstLeastIsLeast(candidates, kind, current);
    LeastIsPreferred(FirstLeast(candidates, kind, current), pool, current, policy);
    if KeyFor(policy).None? {
      OutOfCreditsExactly(pool, current, policy);
    }
    hide Candidates;
    hide Preferred;
    hide OutOfCredits;
    hide IsLeast;
    hide TotalCredits;
    hide FirstLeast;
    hide Drawn;
  }

  /**
   Among the available accounts of the best health tier, a strategy that does not draw takes the
   account that no other precedes in its own order; so does the capacity-weighted one when every
   account it considers is out of credits.
   */
  lemma {:induction false} ChosenOnFields(states: seq<Account>, current: real, policy: Policy, draw: real)
    requires Listed(states, current, Available) != []
    ensures var pool := EffectivePool(Listed(states, current, Available));
            && pool != [] && Select(states, current, policy, draw).Chosen?
            && (!Draws(policy) || OutOfCredits(pool, current, policy) ==>
                  Preferred(Select(states, current, policy, draw).account, pool, current, policy))
  {
    var pool := EffectivePool(Listed(states, current, Available));
    EffectivePoolExists(Listed(states, current, Available));
    if !Draws(policy) || OutOfCredits(pool, current, policy) {
      ChoiceIsPreferred(pool, current, policy, draw);
    }
    hide EffectivePool;
    hide Listed;
    hide Choice;
    hide Preferred;
    hide OutOfCredits;
  }

  // ---------- The random draw ----------

  function CreditsOf(pool: seq<Account>): real {
    if pool == [] then 0.0 else CreditsOf(pool[..|pool| - 1]) + Credits(pool[|pool| - 1])
  }

  lemma {:induction false} CreditsAdd(pool: seq<Account>, n: nat)
    requires n <= |pool|
    ensures CreditsOf(pool) == TotalCredits(pool)
    ensures CreditsOf(pool[..n]) <= CreditsOf(pool)
    decreases |pool|
  {
    if pool != [] {
      var last := |pool| - 1;
      CreditsAreRemaining(pool[last]);
      if n <= last {
        assert pool[..last][..n] == pool[..n];
        CreditsAdd(pool[..last], n);
      } else {
        assert pool[..n] == pool;
        CreditsAdd(pool[..last], last);
      }
      hide Credits;
      hide Remaining;
    }
  }

  lemma {:induction false} DrawnExactly(pool: seq<Account>, point: real, i: nat)
    requires i < |pool| && CreditsOf(pool[..i]) <= point < CreditsOf(pool[..i + 1])
    ensures Drawn(pool, point) == pool[i]
    decreases |pool|
  {
    var n := |pool| - 1;
    CreditsAdd(pool[..n], 0);
    if i < n {
      assert pool[..n][..i] == pool[..i] && pool[..n][..i + 1] == pool[..i + 1];
      CreditsAdd(pool[..n], i + 1);
      hide CreditsOf;
      hide TotalCredits;
      DrawnExactly(pool[..n], point, i);
    } else {
      hide CreditsOf;
      hide TotalCredits;
    }
  }

  lemma {:induction false} DrawnAtPoint(pool: seq<Account>, current: real, draw: real, point: real, i: nat)
    requires CreditsOf(pool) > 0.0 && i < |pool| && point == Point(draw, CreditsOf(pool))
    requires CreditsOf(pool[..i]) <= point < CreditsOf(pool[..i]) + Credits(pool[i])
    ensures CapacityWeightedChoice(pool, current, draw) == pool[i]
  {
    CreditsAdd(pool, 0);
    assert pool[..i + 1][..i] == pool[..i];
    assert CreditsOf(pool[..i + 1]) == CreditsOf(pool[..i]) + Credits(pool[i]);
    hide Point;
    hide CreditsOf;
    hide TotalCredits;
    hide Credits;
    DrawnExactly(pool, point, i);
    hide Drawn;
    hide FirstLeast;
  }

  /**
   With credits left, candidate `i` is drawn for every point in its share of the unit interval: the part
   of it proportional to its own credits, after the parts of the candidates before it.
   */
  lemma {:induction false} DrawnByShare(pool: seq<Account>, current: real, draw: real, i: nat)
    requires CreditsOf(pool) > 0.0 && i < |pool|
    requires CreditsOf(pool[..i]) <= draw * CreditsOf(pool) < CreditsOf(pool[..i]) + Credits(pool[i])
    ensures CapacityWeightedChoice(pool, current, draw) == pool[i]
  {
    var point := Point(draw, CreditsOf(pool));
    assert point == draw * CreditsOf(pool);
    hide *;
    DrawnAtPoint(pool, current, draw, point, i);
  }

  // ---------- What the recovery pass leaves ----------

  lemma {:induction false} Pow2Grows(n: nat)
    requires n >= 4
    ensures Pow2(n) >= 16
    decreases n
  {
    if n > 4 {
      Pow2Grows(n - 1);
    } else {
      assert Pow2(1) == 2 && Pow2(2) == 4 && Pow2(3) == 8;
    }
  }

  /** Half a minute at the third error, doubled with each further one, at most five minutes. */
  lemma {:induction false} BackoffTable(errorCount: int)
    requires errorCount >= 3
    ensures BackoffSeconds(errorCount) ==
            if errorCount == 3 then 30 else if errorCount == 4 then 60 else if errorCount == 5 then 120
            else if errorCount == 6 then 240 else 300
  {
    assert Pow2(0) == 1 && Pow2(1) == 2 && Pow2(2) == 4 && Pow2(3) == 8;
    if errorCount >= 7 {
      Pow2Grows(errorCount - 3);
    }
  }

  /** A time that is there and not zero, as the source tests times. */
  predicate IsTime(t: Option<real>) {
    match t
    case None => false
    case Some(x) => x > 0.0 || x < 0.0
  }

  /** How long an account is held back after the given number of errors. */
  function Hold(errorCount: int): real {
    if errorCount < 3 then 0.0 else if errorCount == 3 then 30.0 else if errorCount == 4 then 60.0
    else if errorCount == 5 then 120.0 else if errorCount == 6 then 240.0 else 300.0
  }

  /** Which accounts may serve, on the fields before the pass. */
  lemma {:induction false} EligibleOnFields(a: Account, current: real)
    ensures Eligible(a, current) <==>
            && !a.status.Paused? && !a.status.Deactivated?
            && (a.status.Active? || (IsTime(a.resetAt) && a.resetAt.value <= current))
            && (IsTime(a.cooldownUntil) ==> a.cooldownUntil.value <= current)
            && (a.status.RateLimited? || IsTime(a.cooldownUntil) || a.errorCount < 3 || !IsTime(a.lastErrorAt)
                || a.lastErrorAt.value + Hold(a.errorCount) <= current)
  {
    EligibleExactly(a, current);
    if a.errorCount >= 3 {
      BackoffTable(a.errorCount);
    }
    hide BackoffSeconds;
    hide Eligible;
  }

  /** What an available account looks like after the pass, field by field. */
  lemma {:induction false} AvailableFields(a: Account, current: real)
    requires Eligible(a, current)
    ensures var cooled := IsTime(a.cooldownUntil);
            Recover(a, current).0 ==
            a.(status := Active,
               usedPercent := if a.status.QuotaExceeded? then Some(0.0) else a.usedPercent,
               resetAt := if a.status.Active? then a.resetAt else None,
               cooldownUntil := if cooled then None else a.cooldownUntil,
               errorCount := if cooled || a.status.RateLimited? || a.errorCount >= 3 then 0 else a.errorCount,
               lastErrorAt := if cooled || (a.errorCount >= 3 && !a.status.RateLimited?) then None else a.lastErrorAt)
  {
    hide BackoffSeconds;
  }

  /** The fallback is a held-back account whose hold ends no later than that of any other. */
  lemma {:induction false} FallbackOnFields(states: seq<Account>, current: real, policy: Policy, draw: real)
    requires Listed(states, current, Available) == []
    requires FallsBack(AfterPass(states, current), Listed(states, current, InBackoff), policy)
    ensures Select(states, current, policy, draw).Chosen?
    ensures var a := Select(states, current, policy, draw).account;
            && a in Listed(states, current, InBackoff)
            && forall x :: x in Listed(states, current, InBackoff) ==>
                 && IsTime(a.lastErrorAt) && IsTime(x.lastErrorAt)
                 && a.lastErrorAt.value + Hold(a.errorCount) <= x.lastErrorAt.value + Hold(x.errorCount)
  {
    FallbackEndsFirst(states, current, policy, draw);
    var a := Select(states, current, policy, draw).account;
    hide Select;
    forall x | x in Listed(states, current, InBackoff)
      ensures IsTime(x.lastErrorAt) && ExpiresAt(x) == x.lastErrorAt.value + Hold(x.errorCount)
    {
      HeldBackEnds(states, current, x);
    }
    hide ExpiresAt;
    hide Hold;
    hide IsTime;
    hide Listed;
  }

  lemma {:induction false} HeldBackEnds(states: seq<Account>, current: real, x: Account)
    requires x in Listed(states, current, InBackoff)
    ensures IsTime(x.lastErrorAt) && ExpiresAt(x) == x.lastErrorAt.value + Hold(x.errorCount)
  {
    ListedMembers(states, current, InBackoff, x);
    hide Listed;
    hide Recover;
    var s :| s in states && Recover(s, current) == (x, InBackoff);
    RecoveredIsActive(s, current);
    BackoffTable(x.errorCount);
    hide BackoffSeconds;
  }

  /** A skipped account keeps its status, unless only a cooldown still holds it. */
  lemma {:induction false} SkippedFields(a: Account, current: real)
    requires Recover(a, current).1.Skipped?
    ensures Recover(a, current).0 == a || (IsTime(a.cooldownUntil) && a.cooldownUntil.value > current)
    ensures Recover(a, current).0.cooldownUntil == a.cooldownUntil
    ensures Recover(a, current).0.lastErrorAt == a.lastErrorAt
  {
    hide BackoffSeconds;
  }

  /**
   Selection is refused exactly when no account may serve and there is nothing to fall back on: the
   fallback is off, nobody is held back, or the only one held back has no blocked account beside it.
   */
  lemma {:induction false} RefusesExactly(states: seq<Account>, current: real, policy: Policy, draw: real)
    ensures var held := |Listed(states, current, InBackoff)|;
            Select(states, current, policy, draw).NoAccount? <==>
            && (forall s :: s in states ==> !Eligible(s, current))
            && (!policy.allowBackoffFallback || held == 0
                || (held == 1 && forall s :: s in states ==> Recover(s, current).0.status.Active?))
  {
    FailsExactly(states, current, policy, draw);
    var after := AfterPass(states, current);
    hide Select;
    hide Listed;
    hide Recover;
    assert forall i :: 0 <= i < |states| ==> after[i] == Recover(states[i], current).0;
    if s :| s in states && !Recover(s, current).0.status.Active? {
      var i :| 0 <= i < |states| && states[i] == s;
      assert after[i] in after;
    }
  }

  // ---------- The reported reason ----------

  predicate NoneLimited(after: seq<Account>) {
    forall s :: s in after ==> !s.status.RateLimited? && !s.status.QuotaExceeded?
  }

  predicate NoneIs(after: seq<Account>, status: Status) {
    forall s :: s in after ==> s.status != status
  }

  /** Nobody is limited, and somebody is paused or deactivated. */
  predicate OnlyShut(after: seq<Account>) {
    NoneLimited(after) && (!NoneIs(after, Paused) || !NoneIs(after, Deactivated))
  }

  /** `least` is the smallest waiting time of its kind among the accounts. */
  ghost predicate LeastWait(after: seq<Account>, w: Wait, least: real) {
    && (exists s :: s in after && WaitUntil(w, s) == Some(least))
    && forall s :: s in after && WaitUntil(w, s).Some? ==> least <= WaitUntil(w, s).value
  }

  ghost predicate NoWait(after: seq<Account>, w: Wait) {
    forall s :: s in after ==> WaitUntil(w, s).None?
  }

  /** When each reason is reported, and which wait. */
  lemma {:induction false} ReasonsExactly(after: seq<Account>, current: real)
    ensures var r, cooldown := ReasonFor(after, current), Cooldown(current);
            && (r == PausedOrReauthentication <==>
                  OnlyShut(after) && !NoneIs(after, Paused) && !NoneIs(after, Deactivated))
            && (r == AllPaused <==> OnlyShut(after) && NoneIs(after, Deactivated))
            && (r == AllReauthentication <==> OnlyShut(after) && NoneIs(after, Paused))
            && (r == NoAvailableAccounts <==> !OnlyShut(after) && NoWait(after, QuotaReset) && NoWait(after, cooldown))
            && (forall t :: r.RetryIn? && LeastWait(after, QuotaReset, t) ==>
                  r.seconds == AtLeastZero(t - Truncated(current) as real))
            && (forall t :: r.RetryIn? && NoWait(after, QuotaReset) && LeastWait(after, cooldown, t) ==>
                  r.seconds == t - current)
  {
    SoonestIsLeast(after, QuotaReset);
    SoonestIsLeast(after, Cooldown(current));
    forall w, t | LeastWait(after, w, t) && (w == QuotaReset || w == Cooldown(current))
      ensures Soonest(after, w) == Some(t)
    {
      SoonestIsLeast(after, w);
    }
    hide Soonest;
    assert NoneLimited(after) <==> !HasStatus(after, RateLimited) && !HasStatus(after, QuotaExceeded);
  }
}
