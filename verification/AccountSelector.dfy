/**
 `select_account` of app/core/balancer/logic.py on account objects: the loop that recovers them in
 place, the lists it fills and the choice it makes, proved against the outcome on account values.
 The same object may be passed more than once.
 */
module AccountSelector {
  import opened Options
  import opened AccountRecovery
  import opened AccountChoice
  import opened AccountSelection

  datatype SelectionResult = Selected(account: AccountState) | Refused(reason: Reason)

  ghost function Views(objs: seq<AccountState>): (r: seq<Account>)
    reads objs
    ensures |r| == |objs|
    ensures forall i :: 0 <= i < |objs| ==> r[i] == objs[i].View()
  {
    seq(|objs|, i requires 0 <= i < |objs| reads objs => objs[i].View())
  }

  /** The result on objects shows the outcome on values. */
  ghost predicate Shows(r: SelectionResult, outcome: Outcome, states: seq<AccountState>)
    reads states
  {
    match outcome
    case Chosen(a) => r.Selected? && r.account in states && r.account.View() == a
    case NoAccount(reason) => r == Refused(reason)
  }

  type Origin = map<AccountState, Account>

  /** The first `i` accounts are recovered, the others as they were. */
  ghost predicate RecoveredUpTo(states: seq<AccountState>, origin: Origin, i: nat, current: real)
    requires i <= |states|
    reads states
  {
    forall o :: o in states ==>
                  && o in origin
                  && o.View() == if o in states[..i] then Recover(origin[o], current).0 else origin[o]
  }

  /** A list of objects holds what the pass over `accounts` puts on that list. */
  ghost predicate Filed(objs: seq<AccountState>, origin: Origin, accounts: seq<Account>, current: real, d: Disposition) {
    && |objs| == |Listed(accounts, current, d)|
    && forall k :: 0 <= k < |objs| ==>
                     objs[k] in origin && Recover(origin[objs[k]], current).0 == Listed(accounts, current, d)[k]
  }

  method RecoverStep(states: seq<AccountState>, i: nat, current: real, ghost origin: Origin) returns (d: Disposition)
    requires i < |states| && RecoveredUpTo(states, origin, i, current)
    modifies states[i]
    ensures RecoveredUpTo(states, origin, i + 1, current)
    ensures d == Recover(origin[states[i]], current).1
  {
    hide Recover;
    hide AccountState.View;
    RecoverComposes(origin[states[i]], current, current);
    d := states[i].RecoverAt(current);
  }

  lemma {:induction false} FiledStep(objs: seq<AccountState>, origin: Origin, was: seq<Account>, i: nat,
                                     o: AccountState, current: real,
                  d: Disposition)
    requires i < |was| && o in origin && origin[o] == was[i]
    requires Filed(objs, origin, was[..i], current, d)
    ensures Filed(if Recover(was[i], current).1 == d then objs + [o] else objs, origin, was[..i + 1], current, d)
  {
    hide Recover;
    assert was[..i + 1][..i] == was[..i];
  }

  method RecoverAll(states: seq<AccountState>, current: real)
    returns (available: seq<AccountState>, backoff: seq<AccountState>)
    modifies states
    ensures forall o :: o in states ==> o.View() == Recover(old(o.View()), current).0
    ensures forall o :: o in available || o in backoff ==> o in states
    ensures Views(available) == Listed(old(Views(states)), current, Available)
    ensures Views(backoff) == Listed(old(Views(states)), current, InBackoff)
  {
    hide Recover;
    hide AccountState.View;
    hide Listed;
    ghost var was := Views(states);
    ghost var origin := map o | o in states :: o.View();
    available, backoff := [], [];
    NothingFiled(origin, current);
    for i := 0 to |states|
      invariant RecoveredUpTo(states, origin, i, current)
      invariant forall o :: o in available || o in backoff ==> o in states
      invariant Filed(available, origin, was[..i], current, Available)
      invariant Filed(backoff, origin, was[..i], current, InBackoff)
    {
      hide Filed;
      FiledStep(available, origin, was, i, states[i], current, Available);
      FiledStep(backoff, origin, was, i, states[i], current, InBackoff);
      var d := RecoverStep(states, i, current, origin);
      hide RecoveredUpTo;
      if d == Available {
        available := available + [states[i]];
      } else if d == InBackoff {
        backoff := backoff + [states[i]];
      }
    }
    assert was[..|states|] == was;
  }

  lemma {:induction false} NothingFiled(origin: Origin, current: real)
    ensures forall d :: Filed([], origin, [], current, d)
  {
  }

  method KeepObjects(objs: seq<AccountState>, t: Test) returns (r: seq<AccountState>)
    ensures Views(r) == Keep(Views(objs), t)
    ensures forall o :: o in r ==> o in objs
  {
    hide Passes;
    ghost var views := Views(objs);
    r := [];
    for i := 0 to |objs|
      invariant Views(r) == Keep(views[..i], t)
      invariant forall o :: o in r ==> o in objs
    {
      assert views[..i + 1][..i] == views[..i];
      if Passes(t, objs[i].View()) {
        r := r + [objs[i]];
      }
    }
    assert views[..|objs|] == views;
  }

  method LeastObject(objs: seq<AccountState>, kind: KeyKind, current: real) returns (r: AccountState)
    requires objs != []
    ensures r in objs && r.View() == FirstLeast(Views(objs), kind, current)
  {
    hide Before;
    ghost var views := Views(objs);
    r := objs[0];
    for i := 1 to |objs|
      invariant r in objs && r.View() == FirstLeast(views[..i], kind, current)
    {
      assert views[..i + 1][..i] == views[..i];
      if Before(kind, objs[i].View(), r.View(), current) {
        r := objs[i];
      }
    }
    assert views[..|objs|] == views;
  }

  method EarlierResetObjects(objs: seq<AccountState>, current: real) returns (r: seq<AccountState>)
    requires objs != []
    ensures Views(r) == EarlierReset(Views(objs), current)
    ensures forall o :: o in r ==> o in objs
  {
    hide ResetBucketDays;
    ghost var views := Views(objs);
    var earliest := ResetBucketDays(objs[0].View(), current);
    for i := 1 to |objs|
      invariant earliest == EarliestBucket(views[..i], current)
    {
      assert views[..i + 1][..i] == views[..i];
      var bucket := ResetBucketDays(objs[i].View(), current);
      earliest := if bucket < earliest then bucket else earliest;
    }
    assert views[..|objs|] == views;
    r := KeepObjects(objs, BucketIs(earliest, current));
  }

  method EffectiveObjects(available: seq<AccountState>) returns (r: seq<AccountState>)
    ensures Views(r) == EffectivePool(Views(available))
    ensures forall o :: o in r ==> o in available
  {
    var healthy := KeepObjects(available, TierIs(HEALTHY));
    var probing := KeepObjects(available, TierIs(PROBING));
    var draining := KeepObjects(available, TierIs(DRAINING));
    hide Keep;
    r := if healthy != [] then healthy else if probing != [] then probing
         else if draining != [] then draining else available;
  }

  /** The weights and their sum, then the first account whose cumulative weight exceeds the point. */
  method CapacityWeightedObject(objs: seq<AccountState>, current: real, draw: real) returns (r: AccountState)
    requires objs != []
    ensures r in objs && r.View() == CapacityWeightedChoice(Views(objs), current, draw)
  {
    hide Remaining;
    hide Point;
    ghost var views := Views(objs);
    var cumulative: seq<real> := [];
    var total := 0.0;
    for i := 0 to |objs|
      invariant total == TotalCredits(views[..i])
      invariant |cumulative| == i
      invariant forall k :: 0 <= k < i ==> cumulative[k] == TotalCredits(views[..k + 1])
    {
      assert views[..i + 1][..i] == views[..i];
      total := total + Remaining(objs[i].View());
      cumulative := cumulative + [total];
    }
    assert views[..|objs|] == views;
    if total <= 0.0 {
      r := LeastObject(objs, UsageKey, current);
      return;
    }
    var k := PickIndex(views, cumulative, Point(draw, total));
    r := objs[k];
  }

  /** `bisect` on the cumulative weights, at most the last index. */
  method PickIndex(ghost views: seq<Account>, cumulative: seq<real>, point: real) returns (k: nat)
    requires views != [] && |cumulative| == |views|
    requires forall i :: 0 <= i < |views| ==> cumulative[i] == TotalCredits(views[..i + 1])
    ensures k < |views| && views[k] == Drawn(views, point)
  {
    hide Remaining;
    hide TotalCredits;
    k := |cumulative| - 1;
    assert views[..|views|] == views;
    while k > 0 && cumulative[k - 1] > point
      invariant k < |views|
      invariant Drawn(views[..k + 1], point) == Drawn(views, point)
    {
      assert views[..k + 1][..k] == views[..k];
      k := k - 1;
    }
    assert views[..k + 1][..k] == views[..k];
  }

  method ChooseObject(pool: seq<AccountState>, current: real, policy: Policy, draw: real) returns (r: AccountState)
    requires pool != []
    ensures r in pool && r.View() == Choice(Views(pool), current, policy, draw)
  {
    ghost var views := Views(pool);
    CandidatesExist(views, current, policy);
    match policy.strategy
    case RoundRobin =>
      r := LeastObject(pool, RoundRobinKey, current);
    case CapacityWeighted =>
      var candidates := pool;
      if policy.preferEarlierReset {
        candidates := EarlierResetObjects(pool, current);
      }
      hide EarlierReset;
      hide FirstLeast;
      hide CapacityWeightedChoice;
      if policy.deterministicProbe {
        r := LeastObject(candidates, ProbeKey, current);
      } else {
        r := CapacityWeightedObject(candidates, current, draw);
      }
    case UsageWeighted =>
      r := LeastObject(pool, if policy.preferEarlierReset then ResetFirstKey else UsageKey, current);
  }

  method HasStatusAmong(states: seq<AccountState>, status: Status) returns (b: bool)
    ensures b == HasStatus(Views(states), status)
  {
    ghost var views := Views(states);
    b := false;
    for i := 0 to |states|
      invariant b == HasStatus(views[..i], status)
    {
      assert views[..i + 1] == views[..i] + [views[i]];
      b := b || states[i].status == status;
      assert b == HasStatus(views[..i + 1], status);
    }
    assert views[..|states|] == views;
  }

  method SoonestAmong(states: seq<AccountState>, w: Wait) returns (r: Option<real>)
    ensures r == Soonest(Views(states), w)
  {
    hide WaitUntil;
    ghost var views := Views(states);
    r := None;
    for i := 0 to |states|
      invariant r == Soonest(views[..i], w)
    {
      assert views[..i + 1][..i] == views[..i];
      var t := WaitUntil(w, states[i].View());
      if t.Some? && (r.None? || t.value < r.value) {
        r := t;
      }
    }
    assert views[..|states|] == views;
  }

  method ExplainRefusal(states: seq<AccountState>, current: real) returns (r: Reason)
    ensures r == ReasonFor(Views(states), current)
  {
    var deactivated := HasStatusAmong(states, Deactivated);
    var paused := HasStatusAmong(states, Paused);
    var rateLimited := HasStatusAmong(states, RateLimited);
    var quotaExceeded := HasStatusAmong(states, QuotaExceeded);
    SoonestIsLeast(Views(states), QuotaReset);
    hide Soonest;
    hide Truncated;
    if paused && deactivated && !rateLimited && !quotaExceeded {
      return PausedOrReauthentication;
    }
    if paused && !rateLimited && !quotaExceeded {
      return AllPaused;
    }
    if deactivated && !rateLimited && !quotaExceeded {
      return AllReauthentication;
    }
    if quotaExceeded {
      var reset := SoonestAmong(states, QuotaReset);
      if reset.Some? {
        return RetryIn(AtLeastZero(reset.value - Truncated(current) as real));
      }
    }
    var cooldown := SoonestAmong(states, Cooldown(current));
    if cooldown.Some? {
      return RetryIn(AtLeastZero(cooldown.value - current));
    }
    return NoAvailableAccounts;
  }

  method HardBlockedAmong(states: seq<AccountState>) returns (b: bool)
    ensures b == HardBlocked(Views(states))
  {
    var paused := HasStatusAmong(states, Paused);
    var deactivated := HasStatusAmong(states, Deactivated);
    var rateLimited := HasStatusAmong(states, RateLimited);
    var quotaExceeded := HasStatusAmong(states, QuotaExceeded);
    b := paused || deactivated || rateLimited || quotaExceeded;
  }

  /** The part of a selection that follows the recovery pass and changes nothing. */
  method Route(states: seq<AccountState>, available: seq<AccountState>, backoff: seq<AccountState>, current: real,
               policy: Policy, draw: real, ghost was: seq<Account>)
    returns (r: SelectionResult)
    requires forall o :: o in available || o in backoff ==> o in states
    requires Views(states) == AfterPass(was, current)
    requires Views(available) == Listed(was, current, Available) && Views(backoff) == Listed(was, current, InBackoff)
    ensures Shows(r, Select(was, current, policy, draw), states)
  {
    hide AccountState.View;
    hide Listed;
    hide AfterPass;
    hide ReasonFor;
    var offered := available;
    if available == [] {
      var hardBlocked := HardBlockedAmong(states);
      if policy.allowBackoffFallback && (|backoff| > 1 || (backoff != [] && hardBlocked)) {
        var nearest := LeastObject(backoff, ExpiryKey, current);
        hide FirstLeast;
        offered := [nearest];
        assert Views(offered) == [FirstLeast(Views(backoff), ExpiryKey, current)];
      } else {
        var reason := ExplainRefusal(states, current);
        return Refused(reason);
      }
    }
    assert Views(offered) == Offered(was, current, policy);
    hide Offered;
    var selected := Pick(offered, current, policy, draw);
    r := Selected(selected);
  }

  method Pick(offered: seq<AccountState>, current: real, policy: Policy, draw: real) returns (r: AccountState)
    requires offered != []
    ensures EffectivePool(Views(offered)) != []
    ensures r in offered && r.View() == Choice(EffectivePool(Views(offered)), current, policy, draw)
  {
    EffectivePoolExists(Views(offered));
    hide EffectivePool;
    hide Choice;
    var pool := EffectiveObjects(offered);
    r := ChooseObject(pool, current, policy, draw);
  }

  /** Every account is recovered in place, and the result is the outcome on the accounts as passed. */
  method SelectAccount(states: seq<AccountState>, now: Option<real>, clock: real, policy: Policy, draw: real)
    returns (r: SelectionResult)
    modifies states
    ensures forall o :: o in states ==> o.View() == Recover(old(o.View()), Current(now, clock)).0
    ensures Shows(r, Select(old(Views(states)), Current(now, clock), policy, draw), states)
  {
    hide Recover;
    hide AccountState.View;
    hide Select;
    hide Listed;
    hide Shows;
    var current := if IsSet(now) then now.value else clock;
    ghost var was := Views(states);
    var available, backoff := RecoverAll(states, current);
    assert Views(states) == AfterPass(was, current);
    r := Route(states, available, backoff, current, policy, draw, was);
  }
}
