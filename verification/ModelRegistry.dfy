/**
 `ModelRegistry.update` of app/core/openai/model_registry.py: merging a partial refresh into a
 snapshot whose two indexes, model -> plans and plan -> models, must stay inverse.

 A dict of results is the list of its entries in iteration order.
 */
module ModelRegistry {
  import opened Options

  datatype UpstreamModel = UpstreamModel(slug: string, details: string)

  type Index = map<string, set<string>>

  datatype Snapshot = Snapshot(models: map<string, UpstreamModel>, modelPlans: Index, planModels: Index)

  datatype PlanResult = PlanResult(plan: string, models: seq<UpstreamModel>)

  predicate InIndex(ix: Index, key: string, value: string) {
    key in ix && value in ix[key]
  }

  /** `setdefault(key, set()).add(value)` */
  function Add(ix: Index, key: string, value: string): Index {
    ix[key := (if key in ix then ix[key] else {}) + {value}]
  }

  ghost predicate NoEmptyEntry(ix: Index) {
    forall k :: k in ix ==> ix[k] != {}
  }

  /** The two indexes are exact inverses, and every indexed model is present under its slug. */
  ghost predicate Consistent(s: Snapshot) {
    && (forall plan, slug :: InIndex(s.modelPlans, slug, plan) <==> InIndex(s.planModels, plan, slug))
    && NoEmptyEntry(s.modelPlans) && NoEmptyEntry(s.planModels)
    && s.models.Keys == s.modelPlans.Keys
    && KeyedBySlug(s.models)
  }

  ghost predicate KeyedBySlug(models: map<string, UpstreamModel>) {
    forall slug :: slug in models ==> models[slug].slug == slug
  }

  predicate Offers(s: Option<Snapshot>, plan: string, slug: string) {
    s.Some? && InIndex(s.value.modelPlans, slug, plan)
  }

  predicate Refreshed(results: seq<PlanResult>, plan: string) {
    exists i :: 0 <= i < |results| && results[i].plan == plan
  }

  predicate ListsSlug(models: seq<UpstreamModel>, slug: string) {
    exists j :: 0 <= j < |models| && models[j].slug == slug
  }

  predicate Fetched(results: seq<PlanResult>, plan: string, slug: string) {
    exists i :: 0 <= i < |results| && results[i].plan == plan && ListsSlug(results[i].models, slug)
  }

  /** The last model with this slug in a list, if any, on top of an earlier choice. */
  function LastOf(models: seq<UpstreamModel>, slug: string, earlier: Option<UpstreamModel>): Option<UpstreamModel> {
    if models == [] then earlier
    else
      var n := |models| - 1;
      if models[n].slug == slug then Some(models[n]) else LastOf(models[..n], slug, earlier)
  }

  function LastFetched(results: seq<PlanResult>, slug: string, earlier: Option<UpstreamModel>): Option<UpstreamModel> {
    if results == [] then earlier
    else
      var n := |results| - 1;
      LastOf(results[n].models, slug, LastFetched(results[..n], slug, earlier))
  }

  function Find(m: map<string, UpstreamModel>, slug: string): Option<UpstreamModel> {
    if slug in m then Some(m[slug]) else None
  }

  // ---------- The loops ----------

  lemma {:induction false} AddFacts(ix: Index, key: string, value: string)
    ensures forall k, v :: InIndex(Add(ix, key, value), k, v) <==> InIndex(ix, k, v) || (k == key && v == value)
    ensures NoEmptyEntry(ix) ==> NoEmptyEntry(Add(ix, key, value))
    ensures Add(ix, key, value).Keys == ix.Keys + {key}
  {
  }

  lemma {:induction false} IndexKeys(ix: Index, key: string)
    requires NoEmptyEntry(ix)
    ensures key in ix <==> exists v :: InIndex(ix, key, v)
  {
    if key in ix {
      assert ix[key] != {};
      var v :| v in ix[key];
      assert InIndex(ix, key, v);
    }
  }

  /** One stale plan: its models are carried over. */
  method CarryPlan(previous: Snapshot, plan: string, models0: map<string, UpstreamModel>, plans0: Index)
    returns (models: map<string, UpstreamModel>, plans: Index)
    requires Consistent(previous) && plan in previous.planModels
    requires NoEmptyEntry(plans0) && models0.Keys == plans0.Keys
    requires forall slug :: slug in models0 ==> slug in previous.models && models0[slug] == previous.models[slug]
    ensures NoEmptyEntry(plans) && models.Keys == plans.Keys
    ensures forall slug :: slug in models ==> slug in previous.models && models[slug] == previous.models[slug]
    ensures forall slug, p :: InIndex(plans, slug, p) <==>
              InIndex(plans0, slug, p) || (p == plan && InIndex(previous.modelPlans, slug, plan))
  {
    models, plans := models0, plans0;
    var todo := previous.planModels[plan];
    while todo != {}
      invariant todo <= previous.planModels[plan]
      invariant NoEmptyEntry(plans) && models.Keys == plans.Keys
      invariant forall slug :: slug in models ==> slug in previous.models && models[slug] == previous.models[slug]
      invariant forall slug, p :: InIndex(plans, slug, p) <==>
                  InIndex(plans0, slug, p) || (p == plan && slug in previous.planModels[plan] - todo)
      decreases todo
    {
      var slug :| slug in todo;
      assert InIndex(previous.planModels, plan, slug);
      assert InIndex(previous.modelPlans, slug, plan);
      AddFacts(plans, slug, plan);
      if slug !in models && slug in previous.models {
        models := models[slug := previous.models[slug]];
      }
      plans := Add(plans, slug, plan);
      todo := todo - {slug};
    }
    assert forall slug :: InIndex(previous.planModels, plan, slug) <==> slug in previous.planModels[plan];
  }

  /** Plans that were not refreshed keep their models. */
  method CarryOver(previous: Snapshot, refreshed: set<string>)
    returns (models: map<string, UpstreamModel>, plans: Index)
    requires Consistent(previous)
    ensures NoEmptyEntry(plans) && models.Keys == plans.Keys
    ensures forall slug :: slug in models ==> slug in previous.models && models[slug] == previous.models[slug]
    ensures forall slug, p :: InIndex(plans, slug, p) <==> p !in refreshed && InIndex(previous.modelPlans, slug, p)
  {
    models, plans := map[], map[];
    var stale := previous.planModels.Keys - refreshed;
    var todo := stale;
    while todo != {}
      invariant todo <= stale
      invariant NoEmptyEntry(plans) && models.Keys == plans.Keys
      invariant forall slug :: slug in models ==> slug in previous.models && models[slug] == previous.models[slug]
      invariant forall slug, p :: InIndex(plans, slug, p) <==> p in stale - todo && InIndex(previous.modelPlans, slug, p)
      decreases todo
    {
      var plan :| plan in todo;
      models, plans := CarryPlan(previous, plan, models, plans);
      todo := todo - {plan};
    }
    forall slug, p ensures InIndex(plans, slug, p) <==> p !in refreshed && InIndex(previous.modelPlans, slug, p) {
      assert InIndex(previous.modelPlans, slug, p) <==> InIndex(previous.planModels, p, slug);
    }
  }

  /** One refreshed plan: its fetched models are merged in. */
  method MergePlan(result: PlanResult, models0: map<string, UpstreamModel>, plans0: Index)
    returns (models: map<string, UpstreamModel>, plans: Index)
    requires NoEmptyEntry(plans0) && models0.Keys == plans0.Keys && KeyedBySlug(models0)
    ensures NoEmptyEntry(plans) && models.Keys == plans.Keys && KeyedBySlug(models)
    ensures forall slug :: Find(models, slug) == LastOf(result.models, slug, Find(models0, slug))
    ensures forall slug, p :: InIndex(plans, slug, p) <==>
              InIndex(plans0, slug, p) || (p == result.plan && ListsSlug(result.models, slug))
  {
    models, plans := models0, plans0;
    var list := result.models;
    for j := 0 to |list|
      invariant NoEmptyEntry(plans) && models.Keys == plans.Keys && KeyedBySlug(models)
      invariant forall slug :: Find(models, slug) == LastOf(list[..j], slug, Find(models0, slug))
      invariant forall slug, p :: InIndex(plans, slug, p) <==>
                  InIndex(plans0, slug, p) || (p == result.plan && ListsSlug(list[..j], slug))
    {
      AddFacts(plans, list[j].slug, result.plan);
      assert list[..j + 1][..j] == list[..j];
      models := models[list[j].slug := list[j]];
      plans := Add(plans, list[j].slug, result.plan);
    }
    assert list[..|list|] == list;
  }

  method MergeAll(results: seq<PlanResult>, models0: map<string, UpstreamModel>, plans0: Index)
    returns (models: map<string, UpstreamModel>, plans: Index)
    requires NoEmptyEntry(plans0) && models0.Keys == plans0.Keys && KeyedBySlug(models0)
    ensures NoEmptyEntry(plans) && models.Keys == plans.Keys && KeyedBySlug(models)
    ensures forall slug :: Find(models, slug) == LastFetched(results, slug, Find(models0, slug))
    ensures forall slug, p :: InIndex(plans, slug, p) <==> InIndex(plans0, slug, p) || Fetched(results, p, slug)
  {
    models, plans := models0, plans0;
    for i := 0 to |results|
      invariant NoEmptyEntry(plans) && models.Keys == plans.Keys && KeyedBySlug(models)
      invariant forall slug :: Find(models, slug) == LastFetched(results[..i], slug, Find(models0, slug))
      invariant forall slug, p :: InIndex(plans, slug, p) <==> InIndex(plans0, slug, p) || Fetched(results[..i], p, slug)
    {
      assert results[..i + 1][..i] == results[..i];
      models, plans := MergePlan(results[i], models, plans);
    }
    assert results[..|results|] == results;
  }

  /** The reverse index. */
  method Reverse(plans: Index) returns (reverse: Index)
    ensures forall slug, p :: InIndex(plans, slug, p) <==> InIndex(reverse, p, slug)
    ensures NoEmptyEntry(reverse)
  {
    reverse := map[];
    var todo := plans.Keys;
    while todo != {}
      invariant todo <= plans.Keys && NoEmptyEntry(reverse)
      invariant forall slug, p :: InIndex(reverse, p, slug) <==> slug !in todo && InIndex(plans, slug, p)
      decreases todo
    {
      var slug :| slug in todo;
      var rest := plans[slug];
      while rest != {}
        invariant rest <= plans[slug] && NoEmptyEntry(reverse)
        invariant forall s, p :: InIndex(reverse, p, s) <==>
                    (s !in todo && InIndex(plans, s, p)) || (s == slug && p in plans[slug] - rest)
        decreases rest
      {
        var plan :| plan in rest;
        AddFacts(reverse, plan, slug);
        reverse := Add(reverse, plan, slug);
        rest := rest - {plan};
      }
      todo := todo - {slug};
    }
  }

  // ---------- The registry ----------

  function PreviousModel(s: Option<Snapshot>, results: seq<PlanResult>, slug: string): Option<UpstreamModel> {
    if s.Some? && slug in s.value.models && slug in s.value.modelPlans
       && exists p :: p in s.value.modelPlans[slug] && !Refreshed(results, p)
    then Some(s.value.models[slug]) else None
  }

  /** What an update promises: the relation, the models and the consistency of the new snapshot. */
  ghost predicate Updated(before: Option<Snapshot>, results: seq<PlanResult>, after: Option<Snapshot>) {
    if results == [] then after == before
    else
      && after.Some? && Consistent(after.value)
      && (forall plan, slug :: Offers(after, plan, slug) <==>
            Fetched(results, plan, slug) || (!Refreshed(results, plan) && Offers(before, plan, slug)))
      && forall slug :: Find(after.value.models, slug) == LastFetched(results, slug, PreviousModel(before, results, slug))
  }

  class Registry {
    var snapshot: Option<Snapshot>

    constructor ()
      ensures snapshot == None
    {
      snapshot := None;
    }

    ghost predicate Valid()
      reads this
    {
      snapshot.Some? ==> Consistent(snapshot.value)
    }

    method Update(results: seq<PlanResult>)
      requires Valid()
      modifies this
      ensures Valid() && Updated(old(snapshot), results, snapshot)
    {
      if results == [] {
        return;
      }
      var carriedModels: map<string, UpstreamModel>, carriedPlans: Index := map[], map[];
      if snapshot.Some? {
        var refreshed := set i | 0 <= i < |results| :: results[i].plan;
        carriedModels, carriedPlans := CarryOver(snapshot.value, refreshed);
        assert forall p :: p in refreshed <==> Refreshed(results, p);
      }
      forall slug ensures Find(carriedModels, slug) == PreviousModel(old(snapshot), results, slug) {
        IndexKeys(carriedPlans, slug);
        if old(snapshot).Some? {
          var s := old(snapshot).value;
          if p :| slug in s.modelPlans && p in s.modelPlans[slug] && !Refreshed(results, p) {
            assert InIndex(s.modelPlans, slug, p) && InIndex(carriedPlans, slug, p);
          }
          if p :| InIndex(carriedPlans, slug, p) {
            assert InIndex(s.modelPlans, slug, p) && !Refreshed(results, p);
          }
        }
      }
      var models, plans := MergeAll(results, carriedModels, carriedPlans);
      var reverse := Reverse(plans);
      snapshot := Some(Snapshot(models, plans, reverse));
    }
  }

  // ---------- Runs of updates ----------

  /** `states[i + 1]` results from updating `states[i]` with `batches[i]`; the registry starts empty. */
  ghost predicate Run(states: seq<Option<Snapshot>>, batches: seq<seq<PlanResult>>) {
    && |states| == |batches| + 1 && states[0] == None
    && forall i :: 0 <= i < |batches| ==> Updated(states[i], batches[i], states[i + 1])
  }

  /** The last batch that refreshed the plan fetched the model for it. */
  ghost predicate LastRefreshFetched(batches: seq<seq<PlanResult>>, plan: string, slug: string) {
    exists k :: 0 <= k < |batches| && Fetched(batches[k], plan, slug)
                && forall j :: k < j < |batches| ==> !Refreshed(batches[j], plan)
  }

  /**
   After any run of updates, whatever was refreshed together and however often, a plan offers a
   model exactly when the latest refresh of that plan listed it.
   */
  lemma {:induction false} RunOffersLatest(states: seq<Option<Snapshot>>, batches: seq<seq<PlanResult>>, plan: string,
                                           slug: string)
    requires Run(states, batches)
    ensures Offers(states[|batches|], plan, slug) <==> LastRefreshFetched(batches, plan, slug)
    decreases |batches|
  {
    if batches != [] {
      var n := |batches| - 1;
      var rest := batches[..n];
      assert Run(states[..n + 1], rest);
      RunOffersLatest(states[..n + 1], rest, plan, slug);
      assert Updated(states[n], batches[n], states[n + 1]);
    }
  }

  /** Indexes without empty entries that hold the same pairs are equal. */
  lemma {:induction false} SameIndex(x: Index, y: Index)
    requires NoEmptyEntry(x) && NoEmptyEntry(y)
    requires forall k, v :: InIndex(x, k, v) <==> InIndex(y, k, v)
    ensures x == y
  {
    forall k ensures k in x <==> k in y {
      IndexKeys(x, k);
      IndexKeys(y, k);
    }
    forall k | k in x ensures x[k] == y[k] {
      forall v ensures v in x[k] <==> v in y[k] {
        assert InIndex(x, k, v) <==> InIndex(y, k, v);
      }
    }
  }

  /** An update's promise leaves no choice: it determines both indexes and every model. */
  lemma {:induction false} UpdateIsDetermined(before: Option<Snapshot>, results: seq<PlanResult>, x: Option<Snapshot>,
                                              y: Option<Snapshot>)
    requires Updated(before, results, x) && Updated(before, results, y)
    ensures x == y
  {
    if results != [] {
      var s, t := x.value, y.value;
      forall slug, plan ensures InIndex(s.modelPlans, slug, plan) <==> InIndex(t.modelPlans, slug, plan) {
        assert Offers(x, plan, slug) <==> Offers(y, plan, slug);
      }
      SameIndex(s.modelPlans, t.modelPlans);
      SameIndex(s.planModels, t.planModels);
      assert s.models.Keys == t.models.Keys;
      forall slug | slug in s.models ensures s.models[slug] == t.models[slug] {
        assert Find(s.models, slug) == Find(t.models, slug);
      }
      assert s.models == t.models;
    }
  }

  /** The batches alone determine every snapshot of a run, and all of them are consistent. */
  lemma {:induction false} RunIsDetermined(x: seq<Option<Snapshot>>, y: seq<Option<Snapshot>>,
                                           batches: seq<seq<PlanResult>>)
    requires Run(x, batches) && Run(y, batches)
    ensures x == y
    ensures forall i :: 0 <= i < |x| && x[i].Some? ==> Consistent(x[i].value)
    decreases |batches|
  {
    if batches != [] {
      var n := |batches| - 1;
      assert Run(x[..n + 1], batches[..n]) && Run(y[..n + 1], batches[..n]);
      RunIsDetermined(x[..n + 1], y[..n + 1], batches[..n]);
      assert x[n] == x[..n + 1][n] && y[n] == y[..n + 1][n];
      assert Updated(x[n], batches[n], x[n + 1]) && Updated(y[n], batches[n], y[n + 1]);
      UpdateIsDetermined(x[n], batches[n], x[n + 1], y[n + 1]);
      assert x == x[..n + 1] + [x[n + 1]] && y == y[..n + 1] + [y[n + 1]];
      forall i | 0 <= i < |x| && x[i].Some? ensures Consistent(x[i].value) {
        assert i <= n ==> x[..n + 1][i] == x[i];
      }
    }
  }
}
