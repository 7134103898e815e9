/**
 The choice `select_account` in app/core/balancer/logic.py makes among recovered accounts: health
 tiers, candidate pools, sort keys and the fallback, as functions on account values.
 */
module AccountChoice {
  import opened Options
  import opened AccountRecovery
  import Ordering

  datatype Strategy = RoundRobin | CapacityWeighted | UsageWeighted

  datatype Policy = Policy(
    strategy: Strategy, preferEarlierReset: bool, allowBackoffFallback: bool, deterministicProbe: bool)

  // ---------- Sort keys ----------

  /** A key tuple: numbers first, padded with zeros behind, then the id. */
  datatype SortKey = SortKey(first: real, second: real, third: real, fourth: real, id: string)

  datatype KeyKind = RoundRobinKey | UsageKey | ResetFirstKey | ProbeKey | ExpiryKey

  predicate Below(x: SortKey, y: SortKey) {
    if x.first != y.first then x.first < y.first
    else if x.second != y.second then x.second < y.second
    else if x.third != y.third then x.third < y.third
    else if x.fourth != y.fourth then x.fourth < y.fourth
    else Ordering.Less(x.id, y.id)
  }

  lemma {:induction false} BelowIsTotal(x: SortKey, y: SortKey)
    ensures Below(x, y) || x == y || Below(y, x)
  {
    Ordering.LessIsTotal(x.id, y.id);
  }

  lemma {:induction false} BelowIsTransitive(x: SortKey, y: SortKey, z: SortKey)
    requires Below(x, y) && Below(y, z)
    ensures Below(x, z)
  {
    if Ordering.Less(x.id, y.id) && Ordering.Less(y.id, z.id) {
      Ordering.LessIsTransitive(x.id, y.id, z.id);
    }
  }

  lemma {:induction false} BelowIsAsymmetric(x: SortKey, y: SortKey)
    requires Below(x, y)
    ensures !Below(y, x)
  {
    if Ordering.Less(x.id, y.id) {
      Ordering.LessIsAsymmetric(x.id, y.id);
    }
  }

  function OrZero(t: Option<real>): real {
    if t.Some? then t.value else 0.0
  }

  function PrimaryUsed(a: Account): real {
    OrZero(a.usedPercent)
  }

  function SecondaryUsed(a: Account): real {
    if a.secondaryUsedPercent.Some? then a.secondaryUsedPercent.value else PrimaryUsed(a)
  }

  const SECONDS_PER_DAY := 86400.0

  const UNKNOWN_RESET_BUCKET_DAYS := 10000

  function ResetBucketDays(a: Account, current: real): int {
    if a.secondaryResetAt.None? then UNKNOWN_RESET_BUCKET_DAYS
    else
      var days := ((a.secondaryResetAt.value as real - current) / SECONDS_PER_DAY).Floor;
      if days < 0 then 0 else days
  }

  /** Credits left in the secondary window. */
  function Remaining(a: Account): (r: real)
    ensures r >= 0.0
    ensures a.capacityCredits.Some? && a.capacityCredits.value <= 0.0 ==> r == 0.0
  {
    if a.capacityCredits.Some? && a.capacityCredits.value <= 0.0 then 0.0
    else
      var capacity := if a.capacityCredits.Some? then a.capacityCredits.value else a.planCredits;
      var used := SecondaryUsed(a);
      var left := capacity * (1.0 - (if used < 100.0 then used else 100.0) / 100.0);
      if left > 0.0 then left else 0.0
  }

  /** When the backoff of a held-back account ends. */
  function ExpiresAt(a: Account): real {
    if a.errorCount >= 3 then OrZero(a.lastErrorAt) + BackoffSeconds(a.errorCount) as real else OrZero(a.lastErrorAt)
  }

  function KeyOf(kind: KeyKind, a: Account, current: real): SortKey {
    match kind
    case RoundRobinKey => SortKey(OrZero(a.lastSelectedAt), 0.0, 0.0, 0.0, a.id)
    case UsageKey => SortKey(SecondaryUsed(a), PrimaryUsed(a), OrZero(a.lastSelectedAt), 0.0, a.id)
    case ResetFirstKey =>
      SortKey(ResetBucketDays(a, current) as real, SecondaryUsed(a), PrimaryUsed(a), OrZero(a.lastSelectedAt), a.id)
    case ProbeKey => SortKey(-Remaining(a), SecondaryUsed(a), PrimaryUsed(a), OrZero(a.lastSelectedAt), a.id)
    case ExpiryKey => SortKey(ExpiresAt(a), 0.0, 0.0, 0.0, "")
  }

  predicate Before(kind: KeyKind, a: Account, b: Account, current: real) {
    Below(KeyOf(kind, a, current), KeyOf(kind, b, current))
  }

  // ---------- Pools ----------

  /** The accounts a pass at `current` puts on the given list, as it leaves them. */
  function Listed(states: seq<Account>, current: real, d: Disposition): seq<Account> {
    if states == [] then []
    else
      var n := |states| - 1;
      var rest := Listed(states[..n], current, d);
      if Recover(states[n], current).1 == d then rest + [Recover(states[n], current).0] else rest
  }

  /** All accounts as the pass leaves them. */
  function AfterPass(states: seq<Account>, current: real): (r: seq<Account>)
    ensures |r| == |states|
    ensures forall i :: 0 <= i < |states| ==> r[i] == Recover(states[i], current).0
  {
    seq(|states|, i requires 0 <= i < |states| => Recover(states[i], current).0)
  }

  datatype Test = TierIs(tier: int) | BucketIs(bucket: int, current: real)

  predicate Passes(t: Test, a: Account) {
    match t
    case TierIs(tier) => a.healthTier == tier
    case BucketIs(bucket, current) => ResetBucketDays(a, current) == bucket
  }

  function Keep(pool: seq<Account>, t: Test): seq<Account> {
    if pool == [] then []
    else
      var n := |pool| - 1;
      Keep(pool[..n], t) + (if Passes(t, pool[n]) then [pool[n]] else [])
  }

  const HEALTHY := 0

  const DRAINING := 1

  const PROBING := 2

  function OrElse(a: seq<Account>, b: seq<Account>): seq<Account> {
    if a != [] then a else b
  }

  /** Healthy accounts, or else probing, or else draining, or else all. */
  function EffectivePool(available: seq<Account>): seq<Account> {
    OrElse(Keep(available, TierIs(HEALTHY)),
           OrElse(Keep(available, TierIs(PROBING)), OrElse(Keep(available, TierIs(DRAINING)), available)))
  }

  function EarliestBucket(pool: seq<Account>, current: real): int
    requires pool != []
  {
    var n := |pool| - 1;
    var bucket := ResetBucketDays(pool[n], current);
    if n == 0 then bucket
    else
      var rest := EarliestBucket(pool[..n], current);
      if bucket < rest then bucket else rest
  }

  function EarlierReset(pool: seq<Account>, current: real): seq<Account>
    requires pool != []
  {
    Keep(pool, BucketIs(EarliestBucket(pool, current), current))
  }

  /** Python's `min`: the first account with a least key. */
  function FirstLeast(pool: seq<Account>, kind: KeyKind, current: real): Account
    requires pool != []
  {
    var n := |pool| - 1;
    if n == 0 then pool[0]
    else
      var rest := FirstLeast(pool[..n], kind, current);
      if Before(kind, pool[n], rest, current) then pool[n] else rest
  }

  function TotalCredits(pool: seq<Account>): real {
    if pool == [] then 0.0 else TotalCredits(pool[..|pool| - 1]) + Remaining(pool[|pool| - 1])
  }

  /** `random.choices`: the first account whose cumulative weight exceeds the drawn point, at most the last. */
  function Drawn(pool: seq<Account>, point: real): Account
    requires pool != []
  {
    var n := |pool| - 1;
    if n == 0 || TotalCredits(pool[..n]) <= point then pool[n] else Drawn(pool[..n], point)
  }

  function Point(draw: real, total: real): real {
    draw * total
  }

  function CapacityWeightedChoice(pool: seq<Account>, current: real, draw: real): Account
    requires pool != []
  {
    if TotalCredits(pool) <= 0.0 then FirstLeast(pool, UsageKey, current) else Drawn(pool, Point(draw, TotalCredits(pool)))
  }

  /** The pool the last step of a strategy picks from. */
  function Candidates(pool: seq<Account>, current: real, policy: Policy): seq<Account>
    requires pool != []
  {
    if policy.strategy.CapacityWeighted? && policy.preferEarlierReset then EarlierReset(pool, current) else pool
  }

  /** The key a strategy minimises; None when it draws at random. */
  function KeyFor(policy: Policy): Option<KeyKind> {
    match policy.strategy
    case RoundRobin => Some(RoundRobinKey)
    case CapacityWeighted => if policy.deterministicProbe then Some(ProbeKey) else None
    case UsageWeighted => if policy.preferEarlierReset then Some(ResetFirstKey) else Some(UsageKey)
  }

  function Choice(pool: seq<Account>, current: real, policy: Policy, draw: real): Account
    requires pool != []
  {
    CandidatesExist(pool, current, policy);
    var candidates := Candidates(pool, current, policy);
    match KeyFor(policy)
    case Some(kind) => FirstLeast(candidates, kind, current)
    case None => CapacityWeightedChoice(candidates, current, draw)
  }

  // ---------- Membership and minima ----------

  lemma {:induction false} KeepMembers(pool: seq<Account>, t: Test, x: Account)
    ensures x in Keep(pool, t) <==> x in pool && Passes(t, x)
    decreases |pool|
  {
    hide Passes;
    if pool != [] {
      var n := |pool| - 1;
      KeepMembers(pool[..n], t, x);
      assert pool == pool[..n] + [pool[n]];
    }
  }

  lemma {:induction false} ListedMembers(states: seq<Account>, current: real, d: Disposition, x: Account)
    ensures x in Listed(states, current, d) <==> exists s :: s in states && Recover(s, current) == (x, d)
    decreases |states|
  {
    hide Recover;
    if states != [] {
      var n := |states| - 1;
      ListedMembers(states[..n], current, d, x);
      assert states == states[..n] + [states[n]];
      if s :| s in states && Recover(s, current) == (x, d) {
        assert s in states[..n] || s == states[n];
      }
    }
  }

  lemma {:induction false} EarliestBucketLeast(pool: seq<Account>, current: real)
    requires pool != []
    ensures forall x :: x in pool ==> EarliestBucket(pool, current) <= ResetBucketDays(x, current)
    ensures exists x :: x in pool && EarliestBucket(pool, current) == ResetBucketDays(x, current)
    decreases |pool|
  {
    hide ResetBucketDays;
    var n := |pool| - 1;
    assert pool == pool[..n] + [pool[n]];
    assert pool[n] in pool;
    if n > 0 {
      EarliestBucketLeast(pool[..n], current);
      var x :| x in pool[..n] && EarliestBucket(pool[..n], current) == ResetBucketDays(x, current);
      assert x in pool;
    }
  }

  lemma {:induction false} CandidatesExist(pool: seq<Account>, current: real, policy: Policy)
    requires pool != []
    ensures Candidates(pool, current, policy) != []
    ensures forall x :: x in Candidates(pool, current, policy) ==> x in pool
  {
    hide ResetBucketDays;
    if policy.strategy.CapacityWeighted? && policy.preferEarlierReset {
      EarliestBucketLeast(pool, current);
      var b := EarliestBucket(pool, current);
      var x :| x in pool && b == ResetBucketDays(x, current);
      forall y ensures y in EarlierReset(pool, current) <==> y in pool && Passes(BucketIs(b, current), y) {
        KeepMembers(pool, BucketIs(b, current), y);
      }
      assert x in EarlierReset(pool, current);
    }
  }

  ghost predicate IsLeast(m: Account, pool: seq<Account>, kind: KeyKind, current: real) {
    m in pool && forall x :: x in pool ==> !Before(kind, x, m, current)
  }

  lemma {:induction false} FirstLeastIsLeast(pool: seq<Account>, kind: KeyKind, current: real)
    requires pool != []
    ensures IsLeast(FirstLeast(pool, kind, current), pool, kind, current)
    decreases |pool|
  {
    var n := |pool| - 1;
    assert pool == pool[..n] + [pool[n]];
    BeforeIsStrict(kind, pool[n], pool[n], current);
    if n > 0 {
      var rest := FirstLeast(pool[..n], kind, current);
      FirstLeastIsLeast(pool[..n], kind, current);
      forall x | x in pool ensures !Before(kind, x, FirstLeast(pool, kind, current), current) {
        BeforeIsTransitive(kind, x, pool[n], rest, current);
        hide Before;
        assert x in pool[..n] || x == pool[n];
      }
    }
  }

  lemma {:induction false} BeforeIsStrict(kind: KeyKind, a: Account, b: Account, current: real)
    ensures !(Before(kind, a, b, current) && Before(kind, b, a, current))
  {
    hide KeyOf;
    if Before(kind, a, b, current) {
      BelowIsAsymmetric(KeyOf(kind, a, current), KeyOf(kind, b, current));
    }
  }

  lemma {:induction false} BeforeIsTransitive(kind: KeyKind, a: Account, b: Account, c: Account, current: real)
    ensures Before(kind, a, b, current) && Before(kind, b, c, current) ==> Before(kind, a, c, current)
  {
    hide KeyOf;
    if Before(kind, a, b, current) && Before(kind, b, c, current) {
      BelowIsTransitive(KeyOf(kind, a, current), KeyOf(kind, b, current), KeyOf(kind, c, current));
    }
  }
}
