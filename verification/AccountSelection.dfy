/**
 `select_account` of app/core/balancer/logic.py as a whole: its outcome as a function of the
 accounts and the instant, and what that outcome guarantees.
 */
module AccountSelection {
  import opened Options
  import opened AccountRecovery
  import opened AccountChoice

  datatype Reason =
    | PausedOrReauthentication
    | AllPaused
    | AllReauthentication
    | RetryIn(seconds: real)
    | NoAvailableAccounts

  datatype Outcome = Chosen(account: Account) | NoAccount(reason: Reason)

  /** `now or time.time()`: an explicit 0.0 also reads the clock. */
  function Current(now: Option<real>, clock: real): real {
    if IsSet(now) then now.value else clock
  }

  predicate HasStatus(states: seq<Account>, status: Status) {
    exists s :: s in states && s.status == status
  }

  predicate HardBlocked(states: seq<Account>) {
    exists s :: s in states && !s.status.Active?
  }

  predicate FallsBack(after: seq<Account>, backoff: seq<Account>, policy: Policy) {
    policy.allowBackoffFallback && (|backoff| > 1 || (backoff != [] && HardBlocked(after)))
  }

  /** The accounts whose waiting time the error message reports. */
  datatype Wait = QuotaReset | Cooldown(current: real)

  function WaitUntil(w: Wait, s: Account): Option<real> {
    match w
    case QuotaReset => if s.status.QuotaExceeded? && IsSet(s.resetAt) then s.resetAt else None
    case Cooldown(current) => if IsSet(s.cooldownUntil) && s.cooldownUntil.value > current then s.cooldownUntil else None
  }

  function Soonest(states: seq<Account>, w: Wait): Option<real> {
    if states == [] then None
    else
      var n := |states| - 1;
      var rest := Soonest(states[..n], w);
      var t := WaitUntil(w, states[n]);
      if t.None? then rest else if rest.None? || t.value < rest.value then t else rest
  }

  /** Python's `int(x)` on a float. */
  function Truncated(x: real): int {
    if x >= 0.0 then x.Floor else -((-x).Floor)
  }

  function AtLeastZero(x: real): real {
    if x < 0.0 then 0.0 else x
  }

  function ReasonFor(after: seq<Account>, current: real): Reason {
    var limited := HasStatus(after, RateLimited) || HasStatus(after, QuotaExceeded);
    if HasStatus(after, Paused) && HasStatus(after, Deactivated) && !limited then PausedOrReauthentication
    else if HasStatus(after, Paused) && !limited then AllPaused
    else if HasStatus(after, Deactivated) && !limited then AllReauthentication
    else if Soonest(after, QuotaReset).Some? then
      RetryIn(AtLeastZero(Soonest(after, QuotaReset).value - Truncated(current) as real))
    else if Soonest(after, Cooldown(current)).Some? then
      RetryIn(AtLeastZero(Soonest(after, Cooldown(current)).value - current))
    else NoAvailableAccounts
  }

  /** The accounts the routing strategy gets to see: the available ones, or the fallback alone. */
  function Offered(states: seq<Account>, current: real, policy: Policy): seq<Account> {
    var available := Listed(states, current, Available);
    var backoff := Listed(states, current, InBackoff);
    if available != [] then available
    else if FallsBack(AfterPass(states, current), backoff, policy) then [FirstLeast(backoff, ExpiryKey, current)]
    else []
  }

  function Select(states: seq<Account>, current: real, policy: Policy, draw: real): Outcome {
    var offered := Offered(states, current, policy);
    EffectivePoolExists(offered);
    if offered != [] then Chosen(Choice(EffectivePool(offered), current, policy, draw))
    else NoAccount(ReasonFor(AfterPass(states, current), current))
  }

  // ---------- The effective pool ----------

  /** Lower is preferred. */
  function TierRank(tier: int): nat {
    if tier == HEALTHY then 0 else if tier == PROBING then 1 else if tier == DRAINING then 2 else 3
  }

  lemma {:induction false} EffectivePoolExists(available: seq<Account>)
    ensures available != [] ==> EffectivePool(available) != []
  {
  }

  lemma {:induction false} EffectivePoolMembers(available: seq<Account>)
    ensures forall x :: x in EffectivePool(available) <==>
                        x in available && forall y :: y in available ==> TierRank(x.healthTier) <= TierRank(y.healthTier)
  {
    var healthy, probing, draining :=
      Keep(available, TierIs(HEALTHY)), Keep(available, TierIs(PROBING)), Keep(available, TierIs(DRAINING));
    TierMembers(available, HEALTHY);
    TierMembers(available, PROBING);
    TierMembers(available, DRAINING);
    hide Keep;
    assert healthy != [] ==> healthy[0] in healthy;
    assert probing != [] ==> probing[0] in probing;
    assert draining != [] ==> draining[0] in draining;
  }

  lemma {:induction false} TierMembers(available: seq<Account>, tier: int)
    ensures forall x :: x in Keep(available, TierIs(tier)) <==> x in available && x.healthTier == tier
  {
    forall x ensures x in Keep(available, TierIs(tier)) <==> x in available && x.healthTier == tier {
      KeepMembers(available, TierIs(tier), x);
    }
  }

  // ---------- What a selection guarantees ----------

  lemma {:induction false} ChoiceIsCandidate(pool: seq<Account>, current: real, policy: Policy, draw: real)
    requires pool != []
    ensures Choice(pool, current, policy, draw) in Candidates(pool, current, policy)
    ensures Choice(pool, current, policy, draw) in pool
  {
    CandidatesExist(pool, current, policy);
    var candidates := Candidates(pool, current, policy);
    hide Candidates;
    hide FirstLeast;
    if KeyFor(policy).Some? {
      FirstLeastIsLeast(candidates, KeyFor(policy).value, current);
    } else {
      CapacityChoiceIsMember(candidates, current, draw);
    }
    hide Before;
    hide CapacityWeightedChoice;
  }

  lemma {:induction false} CapacityChoiceIsMember(pool: seq<Account>, current: real, draw: real)
    requires pool != []
    ensures CapacityWeightedChoice(pool, current, draw) in pool
  {
    hide Point;
    hide TotalCredits;
    hide FirstLeast;
    hide Before;
    FirstLeastIsLeast(pool, UsageKey, current);
    DrawnIsMember(pool, Point(draw, TotalCredits(pool)));
    hide Drawn;
  }

  lemma {:induction false} DrawnIsMember(pool: seq<Account>, point: real)
    requires pool != []
    ensures Drawn(pool, point) in pool
    decreases |pool|
  {
    var n := |pool| - 1;
    hide TotalCredits;
    if n > 0 && TotalCredits(pool[..n]) > point {
      DrawnIsMember(pool[..n], point);
    }
  }

  lemma {:induction false} OfferedIsActive(states: seq<Account>, current: real, policy: Policy, x: Account)
    requires x in Offered(states, current, policy)
    ensures x.status.Active? && !IsSet(x.cooldownUntil)
    ensures exists s :: s in states && Recover(s, current).0 == x && !Recover(s, current).1.Skipped?
  {
    hide Recover;
    ListedMembers(states, current, Available, x);
    ListedMembers(states, current, InBackoff, x);
    var backoff := Listed(states, current, InBackoff);
    if backoff != [] {
      FirstLeastIsLeast(backoff, ExpiryKey, current);
    }
    hide Listed;
    hide FirstLeast;
    assert x in Listed(states, current, Available) || x in Listed(states, current, InBackoff);
    var s :| s in states && (Recover(s, current) == (x, Available) || Recover(s, current) == (x, InBackoff));
    RecoveredIsActive(s, current);
  }

  /**
   A selected account is one of the given accounts after its recovery, ACTIVE, out of cooldown, and
   in the best health tier that any offered account is in.
   */
  lemma {:induction false} SelectedCanServe(states: seq<Account>, current: real, policy: Policy, draw: real)
    requires Select(states, current, policy, draw).Chosen?
    ensures var a := Select(states, current, policy, draw).account;
            && a.status.Active? && !IsSet(a.cooldownUntil)
            && a in Offered(states, current, policy)
            && (exists s :: s in states && Recover(s, current).0 == a && !Recover(s, current).1.Skipped?)
            && forall y :: y in Offered(states, current, policy) ==> TierRank(a.healthTier) <= TierRank(y.healthTier)
  {
    var offered := Offered(states, current, policy);
    var pool := EffectivePool(offered);
    EffectivePoolExists(offered);
    EffectivePoolMembers(offered);
    ChoiceIsCandidate(pool, current, policy, draw);
    OfferedIsActive(states, current, policy, Select(states, current, policy, draw).account);
  }

  /** Equal ids mean equal accounts. */
  ghost predicate IdsIdentify(pool: seq<Account>) {
    forall x, y :: x in pool && y in pool && x.id == y.id ==> x == y
  }

  lemma {:induction false} LeastIsUnique(m: Account, pool: seq<Account>, kind: KeyKind, current: real)
    requires IsLeast(m, pool, kind, current) && IdsIdentify(pool) && !kind.ExpiryKey?
    ensures forall x :: x in pool && x != m ==> Before(kind, m, x, current)
  {
    forall x | x in pool && x != m ensures Before(kind, m, x, current) {
      BelowIsTotal(KeyOf(kind, m, current), KeyOf(kind, x, current));
      hide Below;
      hide KeyOf;
      assert !Before(kind, x, m, current);
    }
  }

  lemma {:induction false} IdsAfterPass(states: seq<Account>, current: real)
    requires IdsIdentify(states)
    ensures IdsIdentify(Listed(states, current, Available))
  {
    hide Recover;
    var pool := Listed(states, current, Available);
    forall x, y | x in pool && y in pool && x.id == y.id ensures x == y {
      ListedMembers(states, current, Available, x);
      ListedMembers(states, current, Available, y);
      var s :| s in states && Recover(s, current) == (x, Available);
      var t :| t in states && Recover(t, current) == (y, Available);
      RecoveredIsActive(s, current);
      RecoveredIsActive(t, current);
    }
  }

  /**
   When an account is available and ids are distinct, a deterministic strategy returns the account
   whose key is strictly below that of every other candidate.
   */
  lemma {:induction false} SelectedIsUniqueMinimum(states: seq<Account>, current: real, policy: Policy, draw: real)
    requires IdsIdentify(states) && Listed(states, current, Available) != [] && KeyFor(policy).Some?
    ensures var pool := EffectivePool(Listed(states, current, Available));
            && pool != [] && Select(states, current, policy, draw).Chosen?
            && var a := Select(states, current, policy, draw).account;
            && a in Candidates(pool, current, policy)
            && forall x :: x in Candidates(pool, current, policy) && x != a ==>
                             Before(KeyFor(policy).value, a, x, current)
  {
    var available := Listed(states, current, Available);
    var pool := EffectivePool(available);
    EffectivePoolExists(available);
    EffectivePoolMembers(available);
    CandidatesExist(pool, current, policy);
    IdsAfterPass(states, current);
    var candidates := Candidates(pool, current, policy);
    FirstLeastIsLeast(candidates, KeyFor(policy).value, current);
    hide EffectivePool;
    hide Candidates;
    hide Before;
    hide FirstLeast;
    LeastIsUnique(FirstLeast(candidates, KeyFor(policy).value, current), candidates, KeyFor(policy).value, current);
  }

  // ---------- Independence of the input order ----------

  ghost predicate SameMembers(a: seq<Account>, b: seq<Account>) {
    forall x :: x in a <==> x in b
  }

  lemma {:induction false} ReorderingKeepsMembers(a: seq<Account>, b: seq<Account>)
    requires multiset(a) == multiset(b)
    ensures SameMembers(a, b)
  {
    forall x ensures x in a <==> x in b {
      assert x in multiset(a) <==> x in multiset(b);
    }
  }

  lemma {:induction false} SameListed(a: seq<Account>, b: seq<Account>, current: real, d: Disposition)
    requires SameMembers(a, b)
    ensures SameMembers(Listed(a, current, d), Listed(b, current, d))
  {
    hide Recover;
    forall x ensures x in Listed(a, current, d) <==> x in Listed(b, current, d) {
      ListedMembers(a, current, d, x);
      ListedMembers(b, current, d, x);
    }
  }

  lemma {:induction false} SameCandidates(a: seq<Account>, b: seq<Account>, current: real, policy: Policy)
    requires SameMembers(a, b) && a != [] && b != []
    ensures SameMembers(Candidates(a, current, policy), Candidates(b, current, policy))
  {
    hide ResetBucketDays;
    if policy.strategy.CapacityWeighted? && policy.preferEarlierReset {
      EarliestBucketLeast(a, current);
      EarliestBucketLeast(b, current);
      var bucket := EarliestBucket(a, current);
      assert bucket == EarliestBucket(b, current);
      forall x ensures x in EarlierReset(a, current) <==> x in EarlierReset(b, current) {
        KeepMembers(a, BucketIs(bucket, current), x);
        KeepMembers(b, BucketIs(bucket, current), x);
      }
    }
  }

  lemma {:induction false} SameLeast(a: seq<Account>, b: seq<Account>, kind: KeyKind, current: real)
    requires SameMembers(a, b) && IdsIdentify(a) && !kind.ExpiryKey? && a != [] && b != []
    ensures FirstLeast(a, kind, current) == FirstLeast(b, kind, current)
  {
    FirstLeastIsLeast(a, kind, current);
    FirstLeastIsLeast(b, kind, current);
    hide FirstLeast;
    LeastIsUnique(FirstLeast(a, kind, current), a, kind, current);
  }

  /** No candidate has credits left exactly when the weights sum to nothing. */
  lemma {:induction false} ExhaustedExactly(pool: seq<Account>)
    ensures TotalCredits(pool) >= 0.0
    ensures TotalCredits(pool) <= 0.0 <==> forall x :: x in pool ==> Remaining(x) == 0.0
    decreases |pool|
  {
    hide Remaining;
    if pool != [] {
      var n := |pool| - 1;
      ExhaustedExactly(pool[..n]);
      assert pool == pool[..n] + [pool[n]];
    }
  }

  /** The strategy does not draw: it minimises a key, or every candidate's credits are used up. */
  ghost predicate Deterministic(pool: seq<Account>, current: real, policy: Policy) {
    pool != []
    && (KeyFor(policy).Some? || forall x :: x in Candidates(pool, current, policy) ==> Remaining(x) == 0.0)
  }

  lemma {:induction false} SameChoice(a: seq<Account>, b: seq<Account>, current: real, policy: Policy, draw: real)
    requires SameMembers(a, b) && IdsIdentify(a) && a != [] && b != []
    requires Deterministic(a, current, policy)
    ensures Choice(a, current, policy, draw) == Choice(b, current, policy, draw)
  {
    hide Remaining;
    CandidatesExist(a, current, policy);
    CandidatesExist(b, current, policy);
    SameCandidates(a, b, current, policy);
    var x, y := Candidates(a, current, policy), Candidates(b, current, policy);
    hide Candidates;
    ExhaustedExactly(x);
    ExhaustedExactly(y);
    hide TotalCredits;
    SameLeast(x, y, if KeyFor(policy).Some? then KeyFor(policy).value else UsageKey, current);
  }

  /** With an account available, every arrangement of the same accounts gives the same selection. */
  lemma {:induction false} AvailableOrderDoesNotMatter(a: seq<Account>, b: seq<Account>, current: real,
                                                       policy: Policy, drawA: real, drawB: real)
    requires multiset(a) == multiset(b) && IdsIdentify(a)
    requires Listed(a, current, Available) != []
    requires Deterministic(EffectivePool(Listed(a, current, Available)), current, policy)
    ensures Select(a, current, policy, drawA) == Select(b, current, policy, drawB)
  {
    ReorderingKeepsMembers(a, b);
    SameListed(a, b, current, Available);
    var x, y := Listed(a, current, Available), Listed(b, current, Available);
    assert x[0] in y;
    IdsAfterPass(a, current);
    hide Listed;
    EffectivePoolExists(x);
    EffectivePoolExists(y);
    EffectivePoolMembers(x);
    EffectivePoolMembers(y);
    hide EffectivePool;
    SameChoice(EffectivePool(x), EffectivePool(y), current, policy, drawA);
    DrawIsIrrelevant(EffectivePool(y), EffectivePool(x), current, policy, drawA, drawB);
  }

  lemma {:induction false} DrawIsIrrelevant(b: seq<Account>, a: seq<Account>, current: real, policy: Policy,
                                            drawA: real, drawB: real)
    requires SameMembers(a, b) && a != [] && b != [] && Deterministic(a, current, policy)
    ensures Choice(b, current, policy, drawA) == Choice(b, current, policy, drawB)
  {
    hide Remaining;
    CandidatesExist(b, current, policy);
    SameCandidates(a, b, current, policy);
    var y := Candidates(b, current, policy);
    hide Candidates;
    ExhaustedExactly(y);
  }

  // ---------- Random choice ----------

  /** A random draw only lands on an account that has credits left. */
  lemma {:induction false} DrawHasCredits(pool: seq<Account>, current: real, draw: real)
    requires pool != [] && 0.0 <= draw < 1.0
    requires exists x :: x in pool && Remaining(x) > 0.0
    ensures CapacityWeightedChoice(pool, current, draw) in pool
    ensures Remaining(CapacityWeightedChoice(pool, current, draw)) > 0.0
  {
    hide Remaining;
    hide Point;
    var x :| x in pool && Remaining(x) > 0.0;
    ExhaustedExactly(pool);
    CapacityChoiceIsMember(pool, current, draw);
    hide TotalCredits;
    PointIsBelow(draw, TotalCredits(pool));
    DrawnIsPositive(pool, Point(draw, TotalCredits(pool)));
    hide Drawn;
  }

  lemma {:induction false} PointIsBelow(draw: real, total: real)
    requires 0.0 <= draw < 1.0 && total > 0.0
    ensures 0.0 <= Point(draw, total) < total
  {
    assert (1.0 - draw) * total > 0.0;
  }

  lemma {:induction false} DrawnIsPositive(pool: seq<Account>, point: real)
    requires pool != [] && 0.0 <= point < TotalCredits(pool)
    ensures Remaining(Drawn(pool, point)) > 0.0
    decreases |pool|
  {
    hide Remaining;
    var n := |pool| - 1;
    if n > 0 && TotalCredits(pool[..n]) > point {
      DrawnIsPositive(pool[..n], point);
    }
  }

  // ---------- Repeating a selection ----------

  lemma {:induction false} ListedAfterPass(states: seq<Account>, first: real, second: real, d: Disposition)
    requires first <= second
    ensures Listed(AfterPass(states, first), second, d) == Listed(states, second, d)
    decreases |states|
  {
    if states != [] {
      var n := |states| - 1;
      ListedAfterPass(states[..n], first, second, d);
      RecoverComposes(states[n], first, second);
      hide Recover;
      assert AfterPass(states, first)[..n] == AfterPass(states[..n], first);
    }
  }

  /**
   A selection leaves the accounts such that a later selection has the outcome it would have had on
   the untouched accounts. At the same instant: repeating a selection repeats its outcome.
   */
  lemma {:induction false} SelectionAfterPass(states: seq<Account>, first: real, second: real, policy: Policy,
                                              draw: real)
    requires first <= second
    ensures Select(AfterPass(states, first), second, policy, draw) == Select(states, second, policy, draw)
    ensures AfterPass(AfterPass(states, first), second) == AfterPass(states, second)
  {
    ListedAfterPass(states, first, second, Available);
    ListedAfterPass(states, first, second, InBackoff);
    forall i | 0 <= i < |states| ensures Recover(Recover(states[i], first).0, second) == Recover(states[i], second) {
      RecoverComposes(states[i], first, second);
    }
    hide Recover;
    assert AfterPass(AfterPass(states, first), second) == AfterPass(states, second);
  }

  // ---------- Fallback and failure ----------

  /**
   Without an available account, the fallback returns the held-back account whose backoff ends first.
   */
  lemma {:induction false} FallbackEndsFirst(states: seq<Account>, current: real, policy: Policy, draw: real)
    requires Listed(states, current, Available) == []
    requires FallsBack(AfterPass(states, current), Listed(states, current, InBackoff), policy)
    ensures Select(states, current, policy, draw).Chosen?
    ensures var a := Select(states, current, policy, draw).account;
            && a in Listed(states, current, InBackoff)
            && forall x :: x in Listed(states, current, InBackoff) ==> ExpiresAt(a) <= ExpiresAt(x)
  {
    var backoff := Listed(states, current, InBackoff);
    var f := FirstLeast(backoff, ExpiryKey, current);
    FirstLeastIsLeast(backoff, ExpiryKey, current);
    EffectivePoolExists([f]);
    EffectivePoolMembers([f]);
    ChoiceIsCandidate(EffectivePool([f]), current, policy, draw);
    hide FirstLeast;
    hide Choice;
    hide EffectivePool;
    forall x | x in backoff ensures ExpiresAt(f) <= ExpiresAt(x) {
      assert !Before(ExpiryKey, x, f, current);
    }
  }

  /** Selection fails exactly when no account is available and the fallback does not apply. */
  lemma {:induction false} FailsExactly(states: seq<Account>, current: real, policy: Policy, draw: real)
    ensures Select(states, current, policy, draw).NoAccount? <==>
            && (forall s :: s in states ==> !Eligible(s, current))
            && !FallsBack(AfterPass(states, current), Listed(states, current, InBackoff), policy)
  {
    hide Recover;
    var available := Listed(states, current, Available);
    if available != [] {
      ListedMembers(states, current, Available, available[0]);
    }
    if s :| s in states && Eligible(s, current) {
      ListedMembers(states, current, Available, Recover(s, current).0);
    }
    EffectivePoolExists(Offered(states, current, policy));
  }

  lemma {:induction false} SoonestIsLeast(states: seq<Account>, w: Wait)
    ensures Soonest(states, w).None? <==> forall s :: s in states ==> WaitUntil(w, s).None?
    ensures Soonest(states, w).Some? ==> exists s :: s in states && WaitUntil(w, s) == Soonest(states, w)
    ensures forall s :: s in states && WaitUntil(w, s).Some? ==> Soonest(states, w).value <= WaitUntil(w, s).value
    decreases |states|
  {
    hide WaitUntil;
    if states != [] {
      var n := |states| - 1;
      SoonestIsLeast(states[..n], w);
      assert states == states[..n] + [states[n]];
      assert states[n] in states;
    }
  }

  // ---------- Exactly when the input order matters ----------

  lemma {:induction false} ListedAppend(a: seq<Account>, b: seq<Account>, current: real, d: Disposition)
    ensures Listed(a + b, current, d) == Listed(a, current, d) + Listed(b, current, d)
    decreases |b|
  {
    hide Recover;
    if b == [] {
      assert a + b == a;
    } else {
      var n := |b| - 1;
      assert (a + b)[..|a + b| - 1] == a + b[..n];
      ListedAppend(a, b[..n], current, d);
    }
  }

  /** A pass puts the same accounts on each list, as often, whatever the arrangement. */
  lemma {:induction false} ListedReordered(a: seq<Account>, b: seq<Account>, current: real, d: Disposition)
    requires multiset(a) == multiset(b)
    ensures multiset(Listed(a, current, d)) == multiset(Listed(b, current, d))
    decreases |a|
  {
    if a == [] {
      assert |multiset(b)| == 0;
    } else {
      assert a[0] in multiset(b);
      var k :| 0 <= k < |b| && b[k] == a[0];
      var front, back := b[..k], b[k + 1..];
      assert a == [] + [a[0]] + a[1..] && b == front + [a[0]] + back;
      SameRest(a[0], a[1..], front, back);
      ListedReordered(a[1..], front + back, current, d);
      ListedSplit(a, [], [a[0]], a[1..], current, d);
      ListedSplit(b, front, [a[0]], back, current, d);
      ListedAppend(front, back, current, d);
      hide Listed;
      SameTotal(Listed(a[1..], current, d), Listed([a[0]], current, d), Listed(front, current, d), Listed(back, current, d));
    }
  }

  lemma {:induction false} SameTotal<T>(rest: seq<T>, one: seq<T>, front: seq<T>, back: seq<T>)
    requires multiset(rest) == multiset(front + back)
    ensures multiset(one) + multiset(rest) == multiset(front) + multiset(one) + multiset(back)
  {
  }

  lemma {:induction false} SameRest<T>(x: T, rest: seq<T>, front: seq<T>, back: seq<T>)
    requires multiset([] + [x] + rest) == multiset(front + [x] + back)
    ensures multiset(rest) == multiset(front + back)
  {
    assert multiset([] + [x] + rest) == multiset([x]) + multiset(rest);
    assert multiset(front + [x] + back) == multiset(front) + multiset([x]) + multiset(back);
    assert multiset(front + back) == multiset(front) + multiset(back);
    Cancel(multiset([x]), multiset(rest), multiset(front) + multiset(back));
  }

  lemma {:induction false} Cancel<T>(one: multiset<T>, r: multiset<T>, q: multiset<T>)
    requires one + r == one + q
    ensures r == q
  {
    assert r == (one + r) - one && q == (one + q) - one;
  }

  lemma {:induction false} ListedSplit(whole: seq<Account>, a: seq<Account>, b: seq<Account>, c: seq<Account>,
                                       current: real,
                    d: Disposition)
    requires whole == a + b + c
    ensures multiset(Listed(whole, current, d)) ==
            multiset(Listed(a, current, d)) + multiset(Listed(b, current, d)) + multiset(Listed(c, current, d))
    ensures Listed([], current, d) == []
  {
    ListedAppend(a + b, c, current, d);
    ListedAppend(a, b, current, d);
  }

  lemma {:induction false} SameAfterPass(a: seq<Account>, b: seq<Account>, current: real)
    requires SameMembers(a, b)
    ensures SameMembers(AfterPass(a, current), AfterPass(b, current))
  {
    hide Recover;
    forall x ensures x in AfterPass(a, current) <==> x in AfterPass(b, current) {
      if i :| 0 <= i < |a| && AfterPass(a, current)[i] == x {
        assert a[i] in b;
        var j :| 0 <= j < |b| && b[j] == a[i];
        assert AfterPass(b, current)[j] == x;
      }
      if j :| 0 <= j < |b| && AfterPass(b, current)[j] == x {
        assert b[j] in a;
        var i :| 0 <= i < |a| && a[i] == b[j];
        assert AfterPass(a, current)[i] == x;
      }
    }
  }

  /** Whether the fallback applies does not depend on the arrangement. */
  lemma {:induction false} SameFallsBack(a: seq<Account>, b: seq<Account>, current: real, policy: Policy)
    requires multiset(a) == multiset(b)
    ensures FallsBack(AfterPass(a, current), Listed(a, current, InBackoff), policy)
       <==> FallsBack(AfterPass(b, current), Listed(b, current, InBackoff), policy)
  {
    ReorderingKeepsMembers(a, b);
    SameAfterPass(a, b, current);
    ListedReordered(a, b, current, InBackoff);
    var x, y := Listed(a, current, InBackoff), Listed(b, current, InBackoff);
    assert |x| == |multiset(x)| && |y| == |multiset(y)|;
  }

  lemma {:induction false} SameSoonest(a: seq<Account>, b: seq<Account>, w: Wait)
    requires SameMembers(a, b)
    ensures Soonest(a, w) == Soonest(b, w)
  {
    SoonestIsLeast(a, w);
    SoonestIsLeast(b, w);
    hide Soonest;
    hide WaitUntil;
  }

  /** The reason of a refusal does not depend on the arrangement. */
  lemma {:induction false} SameReason(a: seq<Account>, b: seq<Account>, current: real)
    requires SameMembers(a, b)
    ensures ReasonFor(a, current) == ReasonFor(b, current)
  {
    SameSoonest(a, b, QuotaReset);
    SameSoonest(a, b, Cooldown(current));
    forall status ensures HasStatus(a, status) <==> HasStatus(b, status) {
    }
    hide Soonest;
    hide HasStatus;
    hide Truncated;
  }

  /** One held-back account whose backoff ends before that of every other. */
  ghost predicate UniqueEarliest(backoff: seq<Account>) {
    exists m :: m in backoff && forall x :: x in backoff && x != m ==> ExpiresAt(m) < ExpiresAt(x)
  }

  /** Of several least accounts the first one listed is taken. */
  lemma {:induction false} FirstOfLeast(pool: seq<Account>, kind: KeyKind, current: real)
    requires pool != [] && forall x :: x in pool ==> !Before(kind, x, pool[0], current)
    ensures FirstLeast(pool, kind, current) == pool[0]
    decreases |pool|
  {
    hide Before;
    var n := |pool| - 1;
    if n > 0 {
      assert pool[n] in pool && forall x :: x in pool[..n] ==> x in pool;
      FirstOfLeast(pool[..n], kind, current);
    }
  }

  lemma {:induction false} ExpiryOrder(x: Account, y: Account, current: real)
    ensures Before(ExpiryKey, x, y, current) <==> ExpiresAt(x) < ExpiresAt(y)
  {
    hide ExpiresAt;
  }

  /** What the fallback selects. */
  lemma {:induction false} FallbackSelects(states: seq<Account>, current: real, policy: Policy, draw: real)
    requires Listed(states, current, Available) == []
    requires FallsBack(AfterPass(states, current), Listed(states, current, InBackoff), policy)
    ensures Select(states, current, policy, draw) ==
            Chosen(FirstLeast(Listed(states, current, InBackoff), ExpiryKey, current))
  {
    var f := FirstLeast(Listed(states, current, InBackoff), ExpiryKey, current);
    EffectivePoolExists([f]);
    EffectivePoolMembers([f]);
    ChoiceIsCandidate(EffectivePool([f]), current, policy, draw);
    hide FirstLeast;
    hide Listed;
    hide Choice;
    hide EffectivePool;
  }

  /** The arrangement does not matter for the selection from `a`. */
  ghost predicate OrderIrrelevant(a: seq<Account>, current: real, policy: Policy) {
    forall b: seq<Account>, drawA: real, drawB: real :: multiset(a) == multiset(b) ==>
      Select(a, current, policy, drawA) == Select(b, current, policy, drawB)
  }

  /** In the fallback, a unique earliest end makes every arrangement select that account. */
  lemma {:induction false} UniqueEarliestIsSelected(a: seq<Account>, b: seq<Account>, current: real, policy: Policy,
                                                    drawA: real, drawB: real)
    requires multiset(a) == multiset(b) && Listed(a, current, Available) == [] && Listed(b, current, Available) == []
    requires FallsBack(AfterPass(a, current), Listed(a, current, InBackoff), policy)
    requires UniqueEarliest(Listed(a, current, InBackoff))
    ensures Select(a, current, policy, drawA) == Select(b, current, policy, drawB)
  {
    ReorderingKeepsMembers(a, b);
    SameListed(a, b, current, InBackoff);
    SameFallsBack(a, b, current, policy);
    FallbackEndsFirst(a, current, policy, drawA);
    FallbackEndsFirst(b, current, policy, drawB);
    hide Select;
    hide Listed;
    hide FallsBack;
    hide ExpiresAt;
  }

  /** The arrangement with one account moved to the front. */
  function MovedFirst(a: seq<Account>, k: nat): (b: seq<Account>)
    requires k < |a|
    ensures multiset(b) == multiset(a)
  {
    assert a == a[..k] + [a[k]] + a[k + 1..];
    [a[k]] + (a[..k] + a[k + 1..])
  }

  /** Moving a held-back account with a least end to the front makes it the one selected. */
  lemma {:induction false} EarliestFirstIsSelected(a: seq<Account>, k: nat, current: real, policy: Policy, draw: real)
    requires k < |a| && Listed(a, current, Available) == []
    requires FallsBack(AfterPass(a, current), Listed(a, current, InBackoff), policy)
    requires Recover(a[k], current).1.InBackoff?
    requires forall x :: x in Listed(a, current, InBackoff) ==> ExpiresAt(Recover(a[k], current).0) <= ExpiresAt(x)
    ensures Select(MovedFirst(a, k), current, policy, draw) == Chosen(Recover(a[k], current).0)
  {
    hide Recover;
    hide ExpiresAt;
    var b := MovedFirst(a, k);
    ReorderingKeepsMembers(a, b);
    SameListed(a, b, current, Available);
    SameListed(a, b, current, InBackoff);
    SameFallsBack(a, b, current, policy);
    ListedAppend([a[k]], a[..k] + a[k + 1..], current, InBackoff);
    assert [a[k]][..0] == [];
    assert Listed([], current, InBackoff) == [];
    assert Listed([a[k]], current, InBackoff) == [Recover(a[k], current).0];
    var pool := Listed(b, current, InBackoff);
    assert pool[0] == Recover(a[k], current).0;
    NothingAvailableReordered(a, b, current);
    forall x | x in pool ensures !Before(ExpiryKey, x, pool[0], current) {
      ExpiryOrder(x, pool[0], current);
    }
    FirstOfLeast(pool, ExpiryKey, current);
    FallbackSelects(b, current, policy, draw);
  }

  /** Without a unique earliest end, some arrangement selects another account. */
  lemma {:induction false} TieFollowsOrder(a: seq<Account>, current: real, policy: Policy,
                                           draw: real) returns (b: seq<Account>)
    requires Listed(a, current, Available) == []
    requires FallsBack(AfterPass(a, current), Listed(a, current, InBackoff), policy)
    requires !UniqueEarliest(Listed(a, current, InBackoff))
    ensures multiset(b) == multiset(a) && Select(b, current, policy, draw) != Select(a, current, policy, draw)
  {
    hide ExpiresAt;
    hide Select;
    hide Listed;
    hide FallsBack;
    FallbackEndsFirst(a, current, policy, draw);
    var f := Select(a, current, policy, draw).account;
    var k := OtherEarliest(a, current, f);
    hide Recover;
    b := MovedFirst(a, k);
    EarliestFirstIsSelected(a, k, current, policy, draw);
  }

  /** Another held-back account whose backoff ends no later, and where it is listed. */
  lemma {:induction false} OtherEarliest(a: seq<Account>, current: real, f: Account) returns (k: nat)
    requires var backoff := Listed(a, current, InBackoff);
             f in backoff && (forall x :: x in backoff ==> ExpiresAt(f) <= ExpiresAt(x)) && !UniqueEarliest(backoff)
    ensures k < |a| && Recover(a[k], current).1.InBackoff? && Recover(a[k], current).0 != f
    ensures forall x :: x in Listed(a, current, InBackoff) ==> ExpiresAt(Recover(a[k], current).0) <= ExpiresAt(x)
  {
    hide ExpiresAt;
    hide Recover;
    var g :| g in Listed(a, current, InBackoff) && g != f && !(ExpiresAt(f) < ExpiresAt(g));
    ListedMembers(a, current, InBackoff, g);
    var s :| s in a && Recover(s, current) == (g, InBackoff);
    k :| 0 <= k < |a| && a[k] == s;
  }

  /** With an account available, ids are distinct and the strategy does not draw. */
  ghost predicate Determined(a: seq<Account>, current: real, policy: Policy) {
    var available := Listed(a, current, Available);
    available != [] ==> IdsIdentify(a) && Deterministic(EffectivePool(available), current, policy)
  }

  /** The fallback is taken and has no unique earliest account. */
  ghost predicate FallbackTie(a: seq<Account>, current: real, policy: Policy) {
    && Listed(a, current, Available) == []
    && FallsBack(AfterPass(a, current), Listed(a, current, InBackoff), policy)
    && !UniqueEarliest(Listed(a, current, InBackoff))
  }

  lemma {:induction false} NothingAvailableReordered(a: seq<Account>, b: seq<Account>, current: real)
    requires multiset(a) == multiset(b) && Listed(a, current, Available) == []
    ensures Listed(b, current, Available) == []
  {
    ListedReordered(a, b, current, Available);
    assert |multiset(Listed(b, current, Available))| == 0;
  }

  lemma {:induction false} RefusalReordered(a: seq<Account>, b: seq<Account>, current: real, policy: Policy,
                                            drawA: real, drawB: real)
    requires multiset(a) == multiset(b) && Listed(a, current, Available) == []
    requires !FallsBack(AfterPass(a, current), Listed(a, current, InBackoff), policy)
    ensures Select(a, current, policy, drawA) == Select(b, current, policy, drawB)
  {
    NothingAvailableReordered(a, b, current);
    SameFallsBack(a, b, current, policy);
    ReorderingKeepsMembers(a, b);
    SameAfterPass(a, b, current);
    SameReason(AfterPass(a, current), AfterPass(b, current), current);
    hide Listed;
    hide ReasonFor;
    hide FallsBack;
  }

  /**
   Where no random draw decides, every arrangement of the accounts has the same outcome, selection
   or refusal, if and only if the fallback does not have to break a tie.
   */
  lemma {:induction false} OrderDoesNotMatter(a: seq<Account>, current: real, policy: Policy)
    requires Determined(a, current, policy)
    ensures OrderIrrelevant(a, current, policy) <==> !FallbackTie(a, current, policy)
  {
    if FallbackTie(a, current, policy) {
      var b := TieFollowsOrder(a, current, policy, 0.0);
    } else {
      forall b: seq<Account>, drawA: real, drawB: real | multiset(a) == multiset(b)
        ensures Select(a, current, policy, drawA) == Select(b, current, policy, drawB)
      {
        SameOutcome(a, b, current, policy, drawA, drawB);
      }
    }
  }

  lemma {:induction false} SameOutcome(a: seq<Account>, b: seq<Account>, current: real, policy: Policy, drawA: real,
                                       drawB: real)
    requires multiset(a) == multiset(b) && Determined(a, current, policy)
    requires !FallbackTie(a, current, policy)
    ensures Select(a, current, policy, drawA) == Select(b, current, policy, drawB)
  {
    hide Select;
    hide Deterministic;
    hide UniqueEarliest;
    hide FallsBack;
    if Listed(a, current, Available) != [] {
      AvailableOrderDoesNotMatter(a, b, current, policy, drawA, drawB);
    } else {
      NothingAvailableReordered(a, b, current);
      if FallsBack(AfterPass(a, current), Listed(a, current, InBackoff), policy) {
        UniqueEarliestIsSelected(a, b, current, policy, drawA, drawB);
      } else {
        RefusalReordered(a, b, current, policy, drawA, drawB);
      }
    }
  }

  // ---------- The reported wait ----------

  /**
   The wait reported for exhausted quotas is long enough: when it has passed, the soonest reset time
   among them is reached. Counted from the whole second of the clock, no reset time comes earlier.
   */
  lemma {:induction false} QuotaWaitSuffices(after: seq<Account>, current: real, s: Account)
    requires current >= 0.0 && s in after && s.status.QuotaExceeded? && IsSet(s.resetAt)
    ensures ReasonFor(after, current).RetryIn?
    ensures exists q :: q in after && q.status.QuotaExceeded? && Reached(q.resetAt, current + ReasonFor(after, current).seconds)
    ensures forall t :: Reached(s.resetAt, t) && t >= current ==> t - Truncated(current) as real >= ReasonFor(after, current).seconds
  {
    SoonestIsLeast(after, QuotaReset);
    hide Soonest;
    assert HasStatus(after, QuotaExceeded);
    assert WaitUntil(QuotaReset, s) == s.resetAt;
    var q :| q in after && WaitUntil(QuotaReset, q) == Soonest(after, QuotaReset);
    assert Truncated(current) as real <= current;
  }
}
