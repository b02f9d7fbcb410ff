/** Repeating a reconciliation changes nothing, and the order of the request does not matter. */
module ReconcileStability {
  import opened Values
  import opened Records
  import opened Memory
  import opened StoreSafety
  import opened Order
  import opened Reconciler
  import opened ReconcilePlan
  import opened ReconcileTheorems

  // ---------- after a success, the plan is already in place ----------

  /** A record live in both states had the same external identity before. */
  lemma LiveBefore(lib: Library, job: Job, types: set<string>, s0: StoreState, s1: StoreState, plan: seq<Prepared>,
                   places: seq<string>, now: int, counts: Counts, k: string)
    requires Reconciled(lib, job, types, s0, s1, plan, places, now, counts)
    requires k in s0.records && k in LiveKeys(s1, job.scope, types)
    ensures k in LiveKeys(s0, job.scope, types)
    ensures ExternalKey(s0.records[k]) == ExternalKey(s1.records[k])
  {
    hide Sound, TombstonesFor, CountsAddUp, OwnsExactly;
    if k in places {
      var i :| 0 <= i < |places| && places[i] == k;
      assert Delivered(lib, job, types, s0, s1, plan[i], k);
      var a, b := s0.records[k], s1.records[k];
      assert ExternalKey(a)[|a.resourceType| + 1..] == a.externalId;
      assert ExternalKey(b)[|b.resourceType| + 1..] == b.externalId;
    }
  }

  lemma CreatedForPlan(lib: Library, job: Job, types: set<string>, s0: StoreState, s1: StoreState, plan: seq<Prepared>,
                       places: seq<string>, now: int, counts: Counts, k: string) returns (i: nat)
    requires Reconciled(lib, job, types, s0, s1, plan, places, now, counts)
    requires k in s1.records && k !in s0.records
    ensures i < |plan| && places[i] == k && ExternalKey(s1.records[k]) == PreparedKey(plan[i])
    ensures forall j | j in LiveKeys(s0, job.scope, types) :: ExternalKey(s0.records[j]) != PreparedKey(plan[i])
  {
    hide Sound, TombstonesFor, CountsAddUp, OwnsExactly;
    i :| 0 <= i < |places| && places[i] == k;
    assert Delivered(lib, job, types, s0, s1, plan[i], k);
  }

  lemma StillNoDuplicates(lib: Library, job: Job, types: set<string>, s0: StoreState, s1: StoreState,
                          plan: seq<Prepared>, places: seq<string>, now: int, counts: Counts)
    requires Reconciled(lib, job, types, s0, s1, plan, places, now, counts)
    requires NoDuplicates(s0, job.scope, types) && DistinctPlan(plan)
    ensures NoDuplicates(s1, job.scope, types)
  {
    hide Reconciled;
    forall j, k | j in LiveKeys(s1, job.scope, types) && k in LiveKeys(s1, job.scope, types) && j != k
      ensures ExternalKey(s1.records[j]) != ExternalKey(s1.records[k])
    {
      if j in s0.records {
        LiveBefore(lib, job, types, s0, s1, plan, places, now, counts, j);
      }
      if k in s0.records {
        LiveBefore(lib, job, types, s0, s1, plan, places, now, counts, k);
      }
      if j !in s0.records {
        var a := CreatedForPlan(lib, job, types, s0, s1, plan, places, now, counts, j);
        if k !in s0.records {
          var b := CreatedForPlan(lib, job, types, s0, s1, plan, places, now, counts, k);
        }
      } else if k !in s0.records {
        var b := CreatedForPlan(lib, job, types, s0, s1, plan, places, now, counts, k);
      }
    }
  }

  /** No tombstone bars a desired resource: deletion only reached what is not desired. */
  lemma StillNotTombstoned(lib: Library, job: Job, types: set<string>, s0: StoreState, s1: StoreState,
                           plan: seq<Prepared>, places: seq<string>, now: int, counts: Counts, i: nat)
    requires Reconciled(lib, job, types, s0, s1, plan, places, now, counts)
    requires Sound(lib, s0) && NoDuplicates(s0, job.scope, types)
    requires i < |plan| && PreparedKey(plan[i]) !in TombstonedKeys(s0, job.scope, types)
    requires plan[i].resourceType in types && plan[i].externalId != ""
    ensures PreparedKey(plan[i]) !in TombstonedKeys(s1, job.scope, types)
  {
    hide Sound, CountsAddUp, OwnsExactly, OthersUntouched;
    assert Delivered(lib, job, types, s0, s1, plan[i], places[i]);
    forall k | k in s1.tombstones && s1.tombstones[k].scope == job.scope && s1.tombstones[k].resourceType in types
               && s1.tombstones[k].externalId != ""
      ensures RecordKey(s1.tombstones[k].resourceType, s1.tombstones[k].externalId) != PreparedKey(plan[i])
    {
      if k in s0.tombstones {
        assert s1.tombstones[k] == s0.tombstones[k];
      } else {
        assert s1.tombstones[k] == TombstoneFor(s0.records[k], now);
        assert k in LiveKeys(s0, job.scope, types);
        if ExternalKey(s0.records[k]) == PreparedKey(plan[i]) && places[i] in s0.records {
          SameLiveKey(job, types, s0, k, places[i], plan[i]);
        }
      }
    }
  }

  lemma SameLiveKey(job: Job, types: set<string>, s0: StoreState, k: string, place: string, d: Prepared)
    requires NoDuplicates(s0, job.scope, types)
    requires k in LiveKeys(s0, job.scope, types) && ExternalKey(s0.records[k]) == PreparedKey(d)
    requires place in s0.records && s0.records[place].scope == job.scope
      && ExternalKey(s0.records[place]) == PreparedKey(d)
    requires s0.records[place].resourceType == d.resourceType && d.resourceType in types && d.externalId != ""
    ensures k == place
  {
    var r := s0.records[place];
    assert ExternalKey(r)[|r.resourceType| + 1..] == r.externalId;
    assert PreparedKey(d)[|d.resourceType| + 1..] == d.externalId;
    assert place in LiveKeys(s0, job.scope, types);
  }

  // ---------- a second run ----------

  /** The state already holds this resource under this key. */
  ghost predicate InPlace(lib: Library, job: Job, types: set<string>, s: StoreState, d: Prepared, k: string) {
    && k in s.records && Holds(lib, job, s.records[k], d)
    && d.resourceType in types && d.externalId != ""
    && PreparedKey(d) !in TombstonedKeys(s, job.scope, types)
  }

  lemma OneIsUntouched(lib: Library, job: Job, types: set<string>, s: StoreState, now: int, p: Progress, d: Prepared,
                       k: string)
    requires NoDuplicates(s, job.scope, types) && InPlace(lib, job, types, s, d, k)
    ensures ApplyOne(lib, job, SurveyOf(s, job.scope, types), now, p, d)
         == Some(p.(managed := p.managed - {PreparedKey(d)}, counts := p.counts.(untouched := p.counts.untouched + 1)))
  {
    var live := LiveByKey(s, job.scope, types);
    assert k in LiveKeys(s, job.scope, types);
    assert live[ExternalKey(s.records[k])] == s.records[k];
    hide NoDuplicates, NewRecord, LiveByKey, ValidRecord, TombstonedKeys;
  }

  lemma {:induction false} AllAreUntouched(lib: Library, job: Job, types: set<string>, s: StoreState, now: int,
                                           ids: seq<string>, plan: seq<Prepared>, places: seq<string>)
    requires NoDuplicates(s, job.scope, types) && |places| == |plan|
    requires forall i | 0 <= i < |plan| :: InPlace(lib, job, types, s, plan[i], places[i])
    ensures var survey := SurveyOf(s, job.scope, types);
      var managed := ManagedOf(survey.live, job.manager);
      ApplyAll(lib, job, survey, now, Progress(s, managed, Counts(0, 0, 0, 0), ids), plan)
      == Some(Progress(s, managed - PlanKeys(plan), Counts(0, 0, 0, |plan|), ids))
  {
    hide NoDuplicates, ApplyOne, InPlace, LiveByKey, ManagedOf, TombstonedKeys;
    var survey := SurveyOf(s, job.scope, types);
    var managed := ManagedOf(survey.live, job.manager);
    if plan == [] {
      assert PlanKeys(plan) == {};
      assert managed - {} == managed;
    } else {
      var before, d := plan[..|plan| - 1], plan[|plan| - 1];
      assert plan == before + [d];
      AllAreUntouched(lib, job, types, s, now, ids, before, places[..|plan| - 1]);
      OneIsUntouched(lib, job, types, s, now, Progress(s, managed - PlanKeys(before), Counts(0, 0, 0, |before|), ids),
                     d, places[|plan| - 1]);
      PlanKeysGrow(before, d);
      ManagedShrinks(managed, PlanKeys(before), PreparedKey(d));
    }
  }

  lemma NothingLeftToDelete(lib: Library, job: Job, types: set<string>, s: StoreState, plan: seq<Prepared>,
                            places: seq<string>)
    requires NoDuplicates(s, job.scope, types) && |places| == |plan|
    requires forall i | 0 <= i < |plan| :: InPlace(lib, job, types, s, plan[i], places[i])
    requires forall k | k in s.records && Owned(job, types, s.records[k]) :: k in places
    ensures ManagedOf(LiveByKey(s, job.scope, types), job.manager) - PlanKeys(plan) == map[]
  {
    var live := LiveByKey(s, job.scope, types);
    forall x | x in live && live[x].manager == job.manager
      ensures x in PlanKeys(plan)
    {
      var k :| k in LiveKeys(s, job.scope, types) && ExternalKey(s.records[k]) == x;
      assert live[ExternalKey(s.records[k])] == s.records[k];
      assert k in places;
      var i :| 0 <= i < |places| && places[i] == k;
      assert InPlace(lib, job, types, s, plan[i], places[i]);
      assert PreparedKey(plan[i]) == x;
    }
  }

  /** Repeating a successful request leaves the store as it is and reports every resource as
      unchanged, as long as the types are still small enough to list. */
  lemma RepeatingChangesNothing(lib: Library, types: set<string>, job: Job, plan: seq<Prepared>, s0: StoreState,
                                now: int, ids: seq<string>, later: int, moreIds: seq<string>)
    requires Sound(lib, s0) && DistinctPlan(plan) && ForTypes(types, plan) && later != ZERO_TIME
    requires ReconcileResult(lib, types, job, plan, s0, now, ids).Some?
    ensures var s1 := ReconcileResult(lib, types, job, plan, s0, now, ids).value.state;
      Listable(lib, s1, job.scope, types) ==>
      ReconcileResult(lib, types, job, plan, s1, later, moreIds) == Some(Success(s1, Counts(0, 0, 0, |plan|)))
  {
    hide Reconciled, InPlace, ApplyAll, LiveByKey, ManagedOf, PlanKeys, Sound, Listable, Buried;
    var places := ReconcileDelivers(lib, types, job, plan, s0, now, ids);
    var first := ReconcileResult(lib, types, job, plan, s0, now, ids).value;
    var s1 := first.state;
    StillNoDuplicates(lib, job, types, s0, s1, plan, places, now, first.counts);
    PlanIsInPlace(lib, types, job, plan, s0, now, ids, places);
    AllAreUntouched(lib, job, types, s1, later, moreIds, plan, places);
    if job.deleteMissing {
      OnlyPlacesAreOwned(lib, job, types, s0, s1, plan, places, now, first.counts);
      NothingLeftToDelete(lib, job, types, s1, plan, places);
      NothingBuried(s1, later);
      assert StoredKeys(map[]) == {};
    }
  }

  lemma OnlyPlacesAreOwned(lib: Library, job: Job, types: set<string>, s0: StoreState, s1: StoreState,
                           plan: seq<Prepared>, places: seq<string>, now: int, counts: Counts)
    requires Reconciled(lib, job, types, s0, s1, plan, places, now, counts) && job.deleteMissing
    ensures forall k | k in s1.records && Owned(job, types, s1.records[k]) :: k in places
  {
  }

  lemma PlanIsInPlace(lib: Library, types: set<string>, job: Job, plan: seq<Prepared>, s0: StoreState,
                      now: int, ids: seq<string>, places: seq<string>)
    requires Sound(lib, s0) && DistinctPlan(plan) && ForTypes(types, plan)
    requires ReconcileResult(lib, types, job, plan, s0, now, ids).Some?
    requires var first := ReconcileResult(lib, types, job, plan, s0, now, ids).value;
      Reconciled(lib, job, types, s0, first.state, plan, places, now, first.counts)
    ensures |places| == |plan|
    ensures forall i | 0 <= i < |plan| ::
      InPlace(lib, job, types, ReconcileResult(lib, types, job, plan, s0, now, ids).value.state, plan[i], places[i])
  {
    hide Sound, ApplyAll, NoDuplicates, LiveByKey, ManagedOf, TombstonedKeys, Listable, OwnsExactly, OthersUntouched,
         TombstonesFor;
    var survey := SurveyOf(s0, job.scope, types);
    var first := ReconcileResult(lib, types, job, plan, s0, now, ids).value;
    var elsewhere := PlanIsCarriedOut(lib, job, types, s0, survey, now, ids, plan);
    forall i | 0 <= i < |plan|
      ensures InPlace(lib, job, types, first.state, plan[i], places[i])
    {
      assert plan[i] in plan;
      assert Placed(lib, job, s0, survey, ApplyAll(lib, job, survey, now,
        Progress(s0, ManagedOf(survey.live, job.manager), Counts(0, 0, 0, 0), ids), plan).value.state, plan[i],
          elsewhere[i]);
      assert Delivered(lib, job, types, s0, first.state, plan[i], places[i]);
      StillNotTombstoned(lib, job, types, s0, first.state, plan, places, now, first.counts, i);
    }
  }

  // ---------- the order of the request ----------

  lemma PlanIsDistinct(registry: Registry, resources: seq<Desired>)
    requires Plannable(registry, resources)
    ensures var all := NormalizedAll(registry, resources);
      && DistinctPlan(all) && Distinct(all) && ForTypes(registry.types, all) && StrictTotalOn(ByIdentity, all)
  {
    var all := NormalizedAll(registry, resources);
    forall i | 0 <= i < |all|
      ensures PreparedKey(all[i]) == DesiredKey(resources[i]) && all[i].resourceType in registry.types
        && all[i].externalId != ""
    {
      assert Normalized(registry, resources[i]) == Some(all[i]);
      assert resources[i] in resources;
    }
    forall i, j | 0 <= i < j < |all|
      ensures PreparedKey(all[i]) != PreparedKey(all[j])
    {
      assert DesiredKey(resources[i]) != DesiredKey(resources[j]);
    }
    IdentityOrder(all);
  }

  lemma IdentityOrder(all: seq<Prepared>)
    requires DistinctPlan(all)
    ensures StrictTotalOn(ByIdentity, all)
  {
    forall x, y | x in all && y in all
      ensures ByIdentity(x, y) ==> !ByIdentity(y, x)
      ensures x != y ==> ByIdentity(x, y) || ByIdentity(y, x)
    {
      CompareTextAntisymmetric(x.externalId, y.externalId);
      CompareTextAntisymmetric(x.resourceType, y.resourceType);
    }
    forall x, y, z | x in all && y in all && z in all && ByIdentity(x, y) && ByIdentity(y, z)
      ensures ByIdentity(x, z)
    {
      CompareTextAntisymmetric(x.resourceType, z.resourceType);
      CompareTextAntisymmetric(x.resourceType, y.resourceType);
      CompareTextAntisymmetric(y.resourceType, z.resourceType);
      if x.resourceType == y.resourceType && y.resourceType == z.resourceType {
        CompareTextTransitive(x.externalId, y.externalId, z.externalId);
      } else {
        CompareTextTransitive(x.resourceType, y.resourceType, z.resourceType);
      }
    }
  }

  lemma {:induction false} NormalizedAllCommutes(registry: Registry, a: seq<Desired>, b: seq<Desired>)
    requires multiset(a) == multiset(b)
    requires forall d | d in a + b :: Normalized(registry, d).Some?
    ensures multiset(NormalizedAll(registry, a)) == multiset(NormalizedAll(registry, b))
  {
    SameElements(a, b);
    if a != [] {
      var d := a[|a| - 1];
      assert d in b;
      var j :| 0 <= j < |b| && b[j] == d;
      var front, back := b[..j], b[j + 1..];
      assert b == front + [d] + back;
      assert a == a[..|a| - 1] + [d];
      assert multiset(front + back) == multiset(b) - multiset{d};
      assert forall x | x in a[..|a| - 1] + (front + back) :: x in a + b;
      hide Normalized;
      NormalizedAllCommutes(registry, a[..|a| - 1], front + back);
      NormalizedWithout(registry, front, d, back);
    }
  }

  lemma NormalizedWithout(registry: Registry, front: seq<Desired>, d: Desired, back: seq<Desired>)
    requires forall x | x in front + [d] + back :: Normalized(registry, x).Some?
    ensures forall x | x in front + back :: Normalized(registry, x).Some?
    ensures multiset(NormalizedAll(registry, front + [d] + back))
         == multiset(NormalizedAll(registry, front + back)) + multiset{Normalized(registry, d).value}
  {
    hide Normalized;
    assert forall x | x in front + [d] :: x in front + [d] + back;
    assert forall x | x in front + back :: x in front + [d] + back;
    NormalizedSplits(registry, front + [d], back);
    NormalizedSplits(registry, front, back);
    assert (front + [d])[..|front|] == front;
  }

  lemma {:induction false} NormalizedSplits(registry: Registry, a: seq<Desired>, b: seq<Desired>)
    requires forall d | d in a + b :: Normalized(registry, d).Some?
    ensures NormalizedAll(registry, a + b) == NormalizedAll(registry, a) + NormalizedAll(registry, b)
  {
    assert forall d | d in a :: d in a + b;
    if b == [] {
      assert a + b == a;
    } else {
      assert (a + b)[..|a + b| - 1] == a + b[..|b| - 1];
      NormalizedSplits(registry, a, b[..|b| - 1]);
    }
  }

  lemma PermutedIsPlannable(registry: Registry, a: seq<Desired>, b: seq<Desired>)
    requires multiset(a) == multiset(b) && Plannable(registry, a)
    ensures Plannable(registry, b)
  {
    SameElements(a, b);
    assert Distinct(a);
    PermutationIsDistinct(a, b);
    forall i, j | 0 <= i < j < |b|
      ensures DesiredKey(b[i]) != DesiredKey(b[j])
    {
      assert b[i] in a && b[j] in a;
      var x :| 0 <= x < |a| && a[x] == b[i];
      var y :| 0 <= y < |a| && a[y] == b[j];
      assert x != y;
    }
  }

  lemma PermutedPlans(registry: Registry, a: seq<Desired>, b: seq<Desired>)
    requires multiset(a) == multiset(b) && Plannable(registry, a) && Plannable(registry, b)
    ensures Sort(ByIdentity, NormalizedAll(registry, a)) == Sort(ByIdentity, NormalizedAll(registry, b))
  {
    assert forall d | d in a + b :: Normalized(registry, d).Some?;
    NormalizedAllCommutes(registry, a, b);
    PlanIsDistinct(registry, a);
    hide Plannable, Normalized, NormalizedAll, StrictTotalOn, Distinct, ByIdentity;
    SortIgnoresInputOrder(ByIdentity, NormalizedAll(registry, a), NormalizedAll(registry, b));
  }

  /** Permuting the request gives the same plan, so the same final store, generated IDs included. */
  lemma RequestOrderDoesNotMatter(registry: Registry, a: seq<Desired>, b: seq<Desired>)
    requires multiset(a) == multiset(b)
    ensures PlanOf(registry, a) == PlanOf(registry, b)
  {
    hide Plannable, NormalizedAll;
    SameElements(a, b);
    if Plannable(registry, a) {
      PermutedIsPlannable(registry, a, b);
      PermutedPlans(registry, a, b);
    } else if Plannable(registry, b) {
      PermutedIsPlannable(registry, b, a);
    }
  }

  lemma SortedIsDistinct(all: seq<Prepared>, plan: seq<Prepared>)
    requires DistinctPlan(all) && Distinct(all) && multiset(all) == multiset(plan)
    ensures DistinctPlan(plan)
  {
    SameElements(all, plan);
    PermutationIsDistinct(all, plan);
    forall i, j | 0 <= i < j < |plan|
      ensures PreparedKey(plan[i]) != PreparedKey(plan[j])
    {
      assert plan[i] in all && plan[j] in all;
      var x :| 0 <= x < |all| && all[x] == plan[i];
      var y :| 0 <= y < |all| && all[y] == plan[j];
      assert x != y;
    }
  }

  /** Every plan made from a request can be carried out as the theorems above require. */
  lemma PlansAreUsable(registry: Registry, resources: seq<Desired>)
    requires PlanOf(registry, resources).Some?
    ensures DistinctPlan(PlanOf(registry, resources).value)
    ensures ForTypes(registry.types, PlanOf(registry, resources).value)
    ensures Sorted(ByIdentity, PlanOf(registry, resources).value)
  {
    var all := NormalizedAll(registry, resources);
    var plan := Sort(ByIdentity, all);
    PlanIsDistinct(registry, resources);
    hide Plannable, Normalized, NormalizedAll, StrictTotalOn, Distinct, ByIdentity, DistinctPlan, Sorted;
    SortSorts(ByIdentity, all);
    SameElements(all, plan);
    SortedIsDistinct(all, plan);
  }
}
