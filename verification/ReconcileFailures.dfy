/** Why a reconciliation fails: the conditions on the store, the clock and the IDs under which it
    has no result. */
module ReconcileFailures {
  import opened Values
  import opened Text
  import opened Records
  import opened Memory
  import opened StoreSafety
  import opened Order
  import opened Reconciler
  import opened ReconcilePlan
  import opened ReconcileTheorems
  import opened ReconcileRun
  import opened Concurrency
  import ExternalIds

  // ---------- the causes ----------

  /** The record is the desired resource, whoever manages it. */
  predicate Bears(r: Record, scope: string, d: Prepared) {
    r.scope == scope && r.resourceType == d.resourceType && r.externalId == d.externalId
  }

  predicate GivenUp(t: Tombstone, scope: string, d: Prepared) {
    t.scope == scope && t.resourceType == d.resourceType && t.externalId == d.externalId
  }

  predicate IdIsUsed(s: StoreState, id: string) {
    (exists k | k in s.records :: s.records[k].id == id) || (exists k | k in s.tombstones :: s.tombstones[k].id == id)
  }

  /** There is no ID for the new resource, or it makes no valid record with it, or the ID is in use, or
      an index conflicts. */
  predicate CannotCreate(lib: Library, job: Job, s: StoreState, now: int, ids: seq<string>, d: Prepared) {
    ids == [] ||
    var created := NewRecord(lib, job.scope, job.manager, d.resourceType, ids[0], d.externalId, d.document, d.indexes,
                             now, "");
    created.None? || IdIsUsed(s, ids[0]) || IndexConflict(lib, s, created.value, "")
  }

  /** The resource makes no valid record in its current one's place, or changes it and an index conflicts. */
  predicate CannotReplace(lib: Library, s: StoreState, now: int, current: Record, d: Prepared) {
    var next := ReplacementRecord(lib, current, d.externalId, d.document, d.indexes, now, None);
    next.None? || (next.value.changed && IndexConflict(lib, s, next.value.record, StoredKey(current)))
  }

  /** s0 is the store before the reconciliation, s the one when the turn of d comes. */
  predicate CannotDeliver(lib: Library, job: Job, s0: StoreState, s: StoreState, now: int, ids: seq<string>,
                          d: Prepared) {
    || (exists k | k in s0.tombstones :: GivenUp(s0.tombstones[k], job.scope, d))
    || (exists k | k in s0.records && Bears(s0.records[k], job.scope, d) ::
          s0.records[k].manager != job.manager || CannotReplace(lib, s, now, s0.records[k], d))
    || ((forall k | k in s0.records :: !Bears(s0.records[k], job.scope, d)) && CannotCreate(lib, job, s, now, ids, d))
  }

  /** The types of a job can be listed when each has at most ten thousand live records in the scope. */
  lemma ListableMeans(lib: Library, s: StoreState, scope: string, types: set<string>)
    ensures Listable(lib, s, scope, types) <==>
      forall t | t in types ::
        |set k | k in s.records && s.records[k].scope == scope && s.records[k].resourceType == t| <= 10000
  {
    forall t
      ensures SelectedKeys(lib, s, Query(scope, t, "", "", 10000))
           == set k | k in s.records && s.records[k].scope == scope && s.records[k].resourceType == t
    {
    }
  }

  /** Duplicates are two live records in the scope with one of the types and the same external ID. */
  lemma DuplicatesMean(lib: Library, s: StoreState, scope: string, types: set<string>)
    requires Sound(lib, s)
    ensures NoDuplicates(s, scope, types) <==>
      forall j, k | j in s.records && k in s.records && j != k ::
        var a, b := s.records[j], s.records[k];
        !(&& a.scope == scope && b.scope == scope && a.resourceType == b.resourceType && a.resourceType in types
          && a.externalId == b.externalId && a.externalId != "")
  {
    ExternalIds.DuplicatesAreSeen(lib, s, scope, types);
    hide Sound, NoDuplicates;
  }

  // ---------- one desired resource ----------

  predicate Clean(types: set<string>, d: Prepared) {
    d.resourceType in types && ValidName(d.resourceType) && d.externalId != ""
      && ValidString(d.externalId, MAXIMUM_STRING_BYTES)
  }

  lemma CleanKeys(types: set<string>, d: Prepared, resourceType: string, externalId: string)
    requires Clean(types, d)
    ensures RecordKey(resourceType, externalId) == PreparedKey(d)
      <==> resourceType == d.resourceType && externalId == d.externalId
  {
    ValidNameHasNoNul(d.resourceType);
    ValidTextHasNoNul(d.externalId, MAXIMUM_STRING_BYTES);
    if RecordKey(resourceType, externalId) == PreparedKey(d) {
      KeysAreInjective(d.resourceType, d.externalId, resourceType, externalId);
    }
  }

  lemma TombstonedMeans(s: StoreState, scope: string, types: set<string>, d: Prepared)
    requires Clean(types, d)
    ensures PreparedKey(d) in TombstonedKeys(s, scope, types) <==> exists k | k in s.tombstones ::
      GivenUp(s.tombstones[k], scope, d)
  {
    hide Clean, PreparedKey;
    assert d.resourceType in types && d.externalId != "" by { CleanHasIdentity(types, d); }
    forall k | k in s.tombstones
      ensures RecordKey(s.tombstones[k].resourceType, s.tombstones[k].externalId) == PreparedKey(d) <==>
        s.tombstones[k].resourceType == d.resourceType && s.tombstones[k].externalId == d.externalId
    {
      CleanKeys(types, d, s.tombstones[k].resourceType, s.tombstones[k].externalId);
    }
  }

  lemma CleanHasIdentity(types: set<string>, d: Prepared)
    requires Clean(types, d)
    ensures d.resourceType in types && d.externalId != ""
  {
  }

  lemma LiveMeans(s: StoreState, scope: string, types: set<string>, d: Prepared, k: string)
    requires Clean(types, d) && NoDuplicates(s, scope, types) && k in s.records && Bears(s.records[k], scope, d)
    ensures PreparedKey(d) in LiveByKey(s, scope, types) && LiveByKey(s, scope, types)[PreparedKey(d)] == s.records[k]
  {
    hide Clean;
    CleanHasIdentity(types, d);
    assert k in LiveKeys(s, scope, types) && ExternalKey(s.records[k]) == PreparedKey(d);
    LiveIsByExternalKey(s, scope, types, PreparedKey(d));
  }

  /** A new record is refused by the store only for its ID and its indexes. */
  lemma CreateRefused(lib: Library, job: Job, s: StoreState, now: int, id: string, d: Prepared)
    requires Sound(lib, s) && forall k | k in s.tombstones :: !GivenUp(s.tombstones[k], job.scope, d)
    requires NewRecord(lib, job.scope, job.manager, d.resourceType, id, d.externalId, d.document, d.indexes, now,
                       "").Some?
    ensures var r := NewRecord(lib, job.scope, job.manager, d.resourceType, id, d.externalId, d.document, d.indexes,
                               now, "").value;
      CreateResult(lib, s, r).Err? <==> IdIsUsed(s, id) || IndexConflict(lib, s, r, "")
  {
    hide ValidRecord, IndexConflict, Sound;
    var r := NewRecord(lib, job.scope, job.manager, d.resourceType, id, d.externalId, d.document, d.indexes, now,
                       "").value;
    forall k | k in s.records && k == RecordKey(r.resourceType, r.id)
      ensures s.records[k].id == r.id
    {
      KeyOfRecord(lib, s, k, r.resourceType, r.id);
    }
  }

  /** A replacement is refused only for its indexes: never for its version, creation time or manager. */
  lemma ReplaceRefused(lib: Library, s: StoreState, now: int, k: string, d: Prepared)
    requires Sound(lib, s) && k in s.records
    requires ReplacementRecord(lib, s.records[k], d.externalId, d.document, d.indexes, now, None).Some?
    ensures var current := s.records[k];
      var next := ReplacementRecord(lib, current, d.externalId, d.document, d.indexes, now, None).value;
      var refused := ReplaceResult(lib, s, next.record, current.version).Err?;
      next.changed ==> (refused <==> IndexConflict(lib, s, next.record, StoredKey(current)))
  {
    hide IndexConflict, Sound, ValidRecord;
    RecordsAreFiled(lib, s, k);
    ValidHasVersion(lib, s.records[k]);
  }

  lemma ValidHasVersion(lib: Library, r: Record)
    requires ValidRecord(lib, r)
    ensures r.version != ""
  {
  }

  /** The causes are all there are. */
  lemma OneFails(lib: Library, job: Job, types: set<string>, s0: StoreState, survey: Survey, now: int,
                 before: seq<Prepared>, p: Progress, places: seq<string>, d: Prepared)
    requires Sound(lib, s0) && Surveys(survey, s0, job.scope, types) && Clean(types, d)
    requires StateCarries(lib, job, s0, survey, before, p.state, places) && PreparedKey(d) !in PlanKeys(before)
    ensures ApplyOne(lib, job, survey, now, p, d).None? <==> CannotDeliver(lib, job, s0, p.state, now, p.ids, d)
  {
    hide Sound, Clean, NewRecord, ReplacementRecord, CreateResult, ReplaceResult, IndexConflict, AllPlaced, Continues,
         NoDuplicates, LiveByKey, TombstonedKeys, IdIsUsed, PlanKeys;
    TombstonedMeans(s0, job.scope, types, d);
    if PreparedKey(d) in survey.live {
      var k := LiveRecord(lib, s0, job.scope, types, d);
      PlaceIsFree(lib, job, types, s0, survey, p.state, before, places, d, k);
      var current := s0.records[k];
      if ReplacementRecord(lib, current, d.externalId, d.document, d.indexes, now, None).Some? {
        ReplaceRefused(lib, p.state, now, k, d);
      }
      forall j | j in s0.records && Bears(s0.records[j], job.scope, d)
        ensures s0.records[j] == current
      {
        LiveMeans(s0, job.scope, types, d, j);
      }
    } else {
      forall j | j in s0.records && Bears(s0.records[j], job.scope, d)
        ensures false
      {
        LiveMeans(s0, job.scope, types, d, j);
      }
      if p.ids != [] && !(exists k | k in s0.tombstones :: GivenUp(s0.tombstones[k], job.scope, d))
         && NewRecord(lib, job.scope, job.manager, d.resourceType, p.ids[0], d.externalId, d.document, d.indexes, now,
                      "").Some? {
        CreateRefused(lib, job, p.state, now, p.ids[0], d);
      }
    }
  }

  // ---------- the whole plan ----------

  function Start(s: StoreState, live: map<string, Record>, manager: string, ids: seq<string>): Progress {
    Progress(s, ManagedOf(live, manager), Counts(0, 0, 0, 0), ids)
  }

  /** Each created resource uses up one ID. */
  lemma {:induction false} IdsAreUsedInTurn(lib: Library, job: Job, survey: Survey, now: int, s: StoreState,
                                            ids: seq<string>, plan: seq<Prepared>)
    requires ApplyAll(lib, job, survey, now, Start(s, survey.live, job.manager, ids), plan).Some?
    ensures var p := ApplyAll(lib, job, survey, now, Start(s, survey.live, job.manager, ids), plan).value;
      p.counts.created <= |ids| && p.ids == ids[p.counts.created..]
  {
    hide NewRecord, ReplacementRecord, CreateResult, ReplaceResult, ManagedOf;
    if plan != [] {
      IdsAreUsedInTurn(lib, job, survey, now, s, ids, plan[..|plan| - 1]);
    }
  }

  lemma {:induction false} SomeElementFails(lib: Library, job: Job, survey: Survey, now: int, p: Progress,
                                            plan: seq<Prepared>)
    returns (i: nat)
    requires ApplyAll(lib, job, survey, now, p, plan).None?
    ensures i < |plan| && ApplyAll(lib, job, survey, now, p, plan[..i]).Some?
    ensures ApplyOne(lib, job, survey, now, ApplyAll(lib, job, survey, now, p, plan[..i]).value, plan[i]).None?
  {
    hide ApplyOne;
    var before := plan[..|plan| - 1];
    if ApplyAll(lib, job, survey, now, p, before).Some? {
      i := |plan| - 1;
    } else {
      i := SomeElementFails(lib, job, survey, now, p, before);
      assert before[..i] == plan[..i];
    }
  }

  /** The plan is carried out up to its element i, without deleting anything, and that one cannot be delivered. */
  ghost predicate FailsAt(lib: Library, types: set<string>, job: Job, plan: seq<Prepared>, s: StoreState, now: int,
                          ids: seq<string>, i: nat)
    requires i < |plan|
  {
    var part := ReconcileResult(lib, types, job.(deleteMissing := false), plan[..i], s, now, ids);
    && part.Some? && part.value.counts.created <= |ids|
    && CannotDeliver(lib, job, s, part.value.state, now, ids[part.value.counts.created..], plan[i])
  }

  lemma {:induction false} DeletionComesLast(lib: Library, job: Job, survey: Survey, now: int, p: Progress,
                                             plan: seq<Prepared>)
    ensures ApplyAll(lib, job.(deleteMissing := false), survey, now, p, plan)
      == ApplyAll(lib, job, survey, now, p, plan)
  {
    hide NewRecord, ReplacementRecord, CreateResult, ReplaceResult;
    if plan != [] {
      DeletionComesLast(lib, job, survey, now, p, plan[..|plan| - 1]);
    }
  }

  lemma FailsAtOne(lib: Library, types: set<string>, job: Job, plan: seq<Prepared>, s: StoreState, now: int,
                   ids: seq<string>, i: nat)
    requires Sound(lib, s) && DistinctPlan(plan) && (forall d | d in plan :: Clean(types, d)) && i < |plan|
    requires now != ZERO_TIME && Listable(lib, s, job.scope, types) && NoDuplicates(s, job.scope, types)
    ensures var survey := SurveyOf(s, job.scope, types);
      var part := ApplyAll(lib, job, survey, now, Start(s, survey.live, job.manager, ids), plan[..i]);
      FailsAt(lib, types, job, plan, s, now, ids, i) <==>
        part.Some? && ApplyOne(lib, job, survey, now, part.value, plan[i]).None?
  {
    hide Sound, Clean, NoDuplicates, Listable, ApplyAll, ApplyOne, CannotDeliver, ManagedOf, LiveByKey, TombstonedKeys,
         AllPlaced, OnlyAt, CountsCarry, Continues;
    var survey := SurveyOf(s, job.scope, types);
    var start := Start(s, survey.live, job.manager, ids);
    DeletionComesLast(lib, job, survey, now, start, plan[..i]);
    DistinctUpTo(plan, i);
    hide DistinctPlan, PlanKeys;
    if ApplyAll(lib, job, survey, now, start, plan[..i]).Some? {
      IdsAreUsedInTurn(lib, job, survey, now, s, ids, plan[..i]);
      var p := ApplyAll(lib, job, survey, now, start, plan[..i]).value;
      var places := PlanIsCarriedOut(lib, job, types, s, survey, now, ids, plan[..i]);
      OneFails(lib, job, types, s, survey, now, plan[..i], p, places, plan[i]);
    }
  }

  lemma DistinctUpTo(plan: seq<Prepared>, i: nat)
    requires DistinctPlan(plan) && i < |plan|
    ensures DistinctPlan(plan[..i]) && PreparedKey(plan[i]) !in PlanKeys(plan[..i])
  {
  }

  /** A reconciliation has no result exactly when the clock is unset, a type has too many records, two
      live records share a desired type's external ID, or some desired resource cannot be delivered in its turn.
      Versions and final deletions are never a cause. */
  lemma ReconcileFailsExactlyWhen(lib: Library, types: set<string>, job: Job, plan: seq<Prepared>, s: StoreState,
                                  now: int, ids: seq<string>)
    requires Sound(lib, s) && DistinctPlan(plan) && forall d | d in plan :: Clean(types, d)
    ensures ReconcileResult(lib, types, job, plan, s, now, ids).None? <==>
      || now == ZERO_TIME || !Listable(lib, s, job.scope, types) || !NoDuplicates(s, job.scope, types)
      || exists i | 0 <= i < |plan| :: FailsAt(lib, types, job, plan, s, now, ids, i)
  {
    hide Sound, Clean, DistinctPlan, NoDuplicates, Listable, ApplyAll, ApplyOne, FailsAt, ManagedOf, LiveByKey,
         TombstonedKeys;
    if now != ZERO_TIME && Listable(lib, s, job.scope, types) && NoDuplicates(s, job.scope, types) {
      var survey := SurveyOf(s, job.scope, types);
      var start := Start(s, survey.live, job.manager, ids);
      var all := ApplyAll(lib, job, survey, now, start, plan);
      assert ReconcileResult(lib, types, job, plan, s, now, ids).None? <==> all.None?;
      if all.None? {
        var i := SomeElementFails(lib, job, survey, now, start, plan);
        FailsAtOne(lib, types, job, plan, s, now, ids, i);
      }
      if i :| 0 <= i < |plan| && FailsAt(lib, types, job, plan, s, now, ids, i) {
        FailsAtOne(lib, types, job, plan, s, now, ids, i);
        FailedElementFailsAll(lib, job, survey, now, start, plan, i);
      }
    }
  }

  lemma FailedElementFailsAll(lib: Library, job: Job, survey: Survey, now: int, p: Progress, plan: seq<Prepared>,
                              i: nat)
    requires i < |plan| && ApplyAll(lib, job, survey, now, p, plan[..i]).Some?
    requires ApplyOne(lib, job, survey, now, ApplyAll(lib, job, survey, now, p, plan[..i]).value, plan[i]).None?
    ensures ApplyAll(lib, job, survey, now, p, plan).None?
  {
    hide ApplyOne;
    assert plan[..i + 1][..i] == plan[..i];
    ApplyStopsAtFailure(lib, job, survey, now, p, plan, i + 1);
  }

  /** Plans of a request meet these requirements when the registered types have valid names. */
  lemma PlansAreClean(registry: Registry, resources: seq<Desired>)
    requires PlanOf(registry, resources).Some? && forall t | t in registry.types :: ValidName(t)
    ensures forall d | d in PlanOf(registry, resources).value :: Clean(registry.types, d)
  {
    var all := NormalizedAll(registry, resources);
    SameElements(all, Sort(ByIdentity, all));
    hide ByIdentity, Sort, NormalizedAll, ValidName, ValidString;
    forall d | d in all
      ensures Clean(registry.types, d)
    {
      var i :| 0 <= i < |all| && all[i] == d;
      assert resources[i] in resources;
    }
  }
}
