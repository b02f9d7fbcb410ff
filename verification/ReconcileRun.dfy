/** The reconciliation transaction itself: maps filled in loops, one store call after another,
    proved against its meaning on the state. */
module ReconcileRun {
  import opened Values
  import opened Text
  import opened Records
  import opened Memory
  import opened StoreSafety
  import opened Order
  import opened Reconciler
  import opened ReconcilePlan
  import opened ReconcileTheorems
  import opened ReconcileStability

  // ---------- the survey ----------

  ghost predicate Keyed(live: map<string, Record>) {
    forall x | x in live :: ExternalKey(live[x]) == x
  }

  ghost function ReachRecords(s: StoreState, scope: string, types: set<string>): set<Record> {
    set k | k in LiveKeys(s, scope, types) :: s.records[k]
  }

  lemma KeyedIsLive(lib: Library, s: StoreState, scope: string, types: set<string>, live: map<string, Record>)
    requires Sound(lib, s) && Keyed(live) && live.Values == ReachRecords(s, scope, types)
    ensures NoDuplicates(s, scope, types) && live == LiveByKey(s, scope, types)
  {
    hide ValidRecord, IndexesUnique, IdsUnique;
    forall k | k in LiveKeys(s, scope, types)
      ensures ExternalKey(s.records[k]) in live && live[ExternalKey(s.records[k])] == s.records[k]
    {
      assert s.records[k] in live.Values;
    }
    forall j, k | j in LiveKeys(s, scope, types) && k in LiveKeys(s, scope, types) && j != k
      ensures ExternalKey(s.records[j]) != ExternalKey(s.records[k])
    {
      if s.records[j] == s.records[k] {
        OneKeyPerRecord(lib, s, j, k);
      }
    }
    var expected := LiveByKey(s, scope, types);
    forall x | x in live
      ensures x in expected && expected[x] == live[x]
    {
      assert live[x] in live.Values;
    }
    forall x | x in expected
      ensures x in live
    {
      var k :| k in LiveKeys(s, scope, types) && ExternalKey(s.records[k]) == x;
    }
  }

  /** Two different records in reach with one external identity. */
  lemma DuplicateFound(lib: Library, s: StoreState, scope: string, types: set<string>, a: Record, b: Record)
    requires Sound(lib, s) && a != b && ExternalKey(a) == ExternalKey(b)
    requires a in ReachRecords(s, scope, types) && b in ReachRecords(s, scope, types)
    ensures !NoDuplicates(s, scope, types)
  {
    var j :| j in LiveKeys(s, scope, types) && s.records[j] == a;
    var k :| k in LiveKeys(s, scope, types) && s.records[k] == b;
    assert j != k;
  }

  ghost function WithExternalId(records: seq<Record>): set<Record> {
    set r | r in records && r.externalId != ""
  }

  /** Files one listing into the two maps. */
  method Admit(records: seq<Record>, manager: string, live: map<string, Record>, managed: map<string, Record>)
    returns (ok: bool, live': map<string, Record>, managed': map<string, Record>, ghost a: Record, ghost b: Record)
    requires Keyed(live) && managed == ManagedOf(live, manager)
    requires Distinct(records) && forall r | r in records :: r !in live.Values
    ensures ok ==>
      && Keyed(live') && managed' == ManagedOf(live', manager)
      && live'.Values == live.Values + WithExternalId(records)
    ensures !ok ==>
      && a != b && ExternalKey(a) == ExternalKey(b)
      && a in live.Values + WithExternalId(records) && b in live.Values + WithExternalId(records)
  {
    live', managed' := live, managed;
    for n := 0 to |records|
      invariant Keyed(live') && managed' == ManagedOf(live', manager)
      invariant live'.Values == live.Values + WithExternalId(records[..n])
    {
      var r := records[n];
      assert records[..n + 1] == records[..n] + [r];
      assert r !in records[..n];
      assert WithExternalId(records[..n + 1]) == WithExternalId(records[..n]) + (if r.externalId != "" then {r}
        else {});
      assert r in records;
      if r.externalId != "" {
        var key := ExternalKey(r);
        if key in live' {
          assert live'[key] in live'.Values;
          assert forall x | x in records[..n] :: x in records;
          return false, live', managed', live'[key], r;
        }
        ValuesGrow(live', key, r, manager);
        hide Keyed, ManagedOf;
        live' := live'[key := r];
        if r.manager == manager {
          managed' := managed'[key := r];
        }
      }
    }
    assert records[..|records|] == records;
    a, b := *, *;
    ok := true;
  }

  lemma ValuesGrow(m: map<string, Record>, key: string, r: Record, manager: string)
    requires key !in m && key == ExternalKey(r) && Keyed(m)
    ensures m[key := r].Values == m.Values + {r}
    ensures Keyed(m[key := r])
    ensures ManagedOf(m[key := r], manager) == if r.manager == manager then ManagedOf(m, manager)[key := r]
      else ManagedOf(m, manager)
  {
    var next := m[key := r];
    assert next[key] == r;
    assert forall x | x in m :: next[x] == m[x];
  }

  lemma ListedInReach(lib: Library, s: StoreState, scope: string, done: set<string>, t: string, q: Query,
                      records: seq<Record>)
    requires q == Query(scope, t, "", "", MAXIMUM_RECONCILE_RESOURCES) && t !in done
    requires forall x :: x in records <==> exists k :: k in SelectedKeys(lib, s, q) && s.records[k] == x
    ensures ReachRecords(s, scope, done + {t}) == ReachRecords(s, scope, done) + WithExternalId(records)
    ensures forall r | r in records :: r !in ReachRecords(s, scope, done)
  {
    hide RecordMatches;
    forall r | r in ReachRecords(s, scope, done + {t})
      ensures r in ReachRecords(s, scope, done) + WithExternalId(records)
    {
      var k :| k in LiveKeys(s, scope, done + {t}) && s.records[k] == r;
      if r.resourceType == t {
        assert k in SelectedKeys(lib, s, q);
      } else {
        assert k in LiveKeys(s, scope, done);
      }
    }
    forall r | r in WithExternalId(records)
      ensures r in ReachRecords(s, scope, done + {t})
    {
      var k :| k in SelectedKeys(lib, s, q) && s.records[k] == r;
      assert k in LiveKeys(s, scope, done + {t});
    }
    forall r | r in ReachRecords(s, scope, done)
      ensures r in ReachRecords(s, scope, done + {t})
    {
      var k :| k in LiveKeys(s, scope, done) && s.records[k] == r;
      assert k in LiveKeys(s, scope, done + {t});
    }
  }

  lemma ReachGrows(s: StoreState, scope: string, some: set<string>, all: set<string>)
    requires some <= all
    ensures ReachRecords(s, scope, some) <= ReachRecords(s, scope, all)
  {
    forall r | r in ReachRecords(s, scope, some)
      ensures r in ReachRecords(s, scope, all)
    {
      var k :| k in LiveKeys(s, scope, some) && s.records[k] == r;
      assert k in LiveKeys(s, scope, all);
    }
  }

  /** Reads everything the job needs to know before it changes anything. */
  method Look(tx: MemoryTransaction, types: set<string>, job: Job)
    returns (ok: bool, survey: Survey, managed: map<string, Record>)
    requires Sound(tx.lib, tx.State())
    requires job.scope != "" && forall t | t in types :: ValidName(t)
    ensures ok <==> Listable(tx.lib, tx.State(), job.scope, types) && NoDuplicates(tx.State(), job.scope, types)
    ensures ok ==> survey == SurveyOf(tx.State(), job.scope, types) && managed == ManagedOf(survey.live, job.manager)
  {
    hide Sound, ReachRecords, TombstonedKeys, WithExternalId, Keyed, ManagedOf, LiveByKey, NoDuplicates, SelectedKeys;
    ghost var s := tx.State();
    var live: map<string, Record> := map[];
    var tombstoned: set<string> := {};
    managed := map[];
    survey := Survey(live, tombstoned);
    var rest := types;
    NothingInReach(s, job.scope);
    NothingManaged(job.manager);
    IdsAreDistinct(tx.lib, s);
    assert types - rest == {};
    while rest != {}
      invariant rest <= types
      invariant Listable(tx.lib, s, job.scope, types - rest)
      invariant Keyed(live) && managed == ManagedOf(live, job.manager)
      invariant live.Values == ReachRecords(s, job.scope, types - rest)
      invariant tombstoned == TombstonedKeys(s, job.scope, types - rest)
      decreases rest
    {
      var t :| t in rest;
      ghost var done := types - rest;
      rest := rest - {t};
      assert types - rest == done + {t};
      var q := Query(job.scope, t, "", "", MAXIMUM_RECONCILE_RESOURCES);
      var listing := tx.List(q);
      if listing.Err? {
        return false, survey, managed;
      }
      SortedListing(listing.value);
      ListedInReach(tx.lib, s, job.scope, done, t, q, listing.value);
      var filed;
      ghost var a: Record, b: Record;
      filed, live, managed, a, b := Admit(listing.value, job.manager, live, managed);
      if !filed {
        ReachGrows(s, job.scope, done + {t}, types);
        DuplicateFound(tx.lib, s, job.scope, types, a, b);
        return false, survey, managed;
      }
      var stones := tx.Tombstones(job.scope, t);
      TombstonesGrow(s, job.scope, done, t, stones.value);
      tombstoned := tombstoned + set x | x in stones.value && x.externalId != "" ::
        RecordKey(x.resourceType, x.externalId);
    }
    assert types - rest == types;
    KeyedIsLive(tx.lib, s, job.scope, types, live);
    ok, survey := true, Survey(live, tombstoned);
  }

  lemma NothingManaged(manager: string)
    ensures var none: map<string, Record> := map[]; Keyed(none) && ManagedOf(none, manager) == none && none.Values == {}
  {
  }

  lemma IdsAreDistinct(lib: Library, s: StoreState)
    requires Sound(lib, s)
    ensures DistinctIds(s.records)
  {
  }

  lemma NothingInReach(s: StoreState, scope: string)
    ensures ReachRecords(s, scope, {}) == {} && TombstonedKeys(s, scope, {}) == {}
  {
  }

  lemma SortedListing(records: seq<Record>)
    requires Sorted(ById, records)
    ensures Distinct(records)
  {
    forall i, j | 0 <= i < j < |records|
      ensures records[i] != records[j]
    {
      assert ById(records[i], records[j]);
      CompareTextAntisymmetric(records[i].id, records[j].id);
    }
  }

  lemma TombstonesGrow(s: StoreState, scope: string, done: set<string>, t: string, stones: seq<Tombstone>)
    requires forall x :: x in stones <==>
      exists k :: k in s.tombstones && s.tombstones[k] == x && x.scope == scope && x.resourceType == t
    ensures TombstonedKeys(s, scope, done + {t}) ==
        TombstonedKeys(s, scope, done) + set x | x in stones && x.externalId != "" ::
          RecordKey(x.resourceType, x.externalId)
  {
  }

  // ---------- carrying out the plan ----------

  /** One round of the desired-state loop. */
  method Apply(tx: MemoryTransaction, job: Job, survey: Survey, now: int, d: Prepared,
               managed: map<string, Record>, counts: Counts, ids: seq<string>)
    returns (ok: bool, managed': map<string, Record>, counts': Counts, ids': seq<string>)
    modifies tx
    ensures match ApplyOne(tx.lib, job, survey, now, Progress(old(tx.State()), managed, counts, ids), d)
            case None => !ok
            case Some(q) => ok && q == Progress(tx.State(), managed', counts', ids')
  {
    managed', counts', ids' := managed, counts, ids;
    ok := false;
    var key := PreparedKey(d);
    if key in survey.tombstoned {
      return;
    }
    if key in survey.live && survey.live[key].manager != job.manager {
      return;
    }
    if key !in survey.live {
      if ids == [] {
        return;
      }
      var record := NewRecord(tx.lib, job.scope, job.manager, d.resourceType, ids[0], d.externalId, d.document,
                              d.indexes, now, "");
      if record.None? {
        return;
      }
      var error := tx.Create(record.value);
      if error.Some? {
        return;
      }
      return true, managed, counts.(created := counts.created + 1), ids[1..];
    }
    var existing := survey.live[key];
    var next := ReplacementRecord(tx.lib, existing, d.externalId, d.document, d.indexes, now, None);
    if next.None? {
      return;
    }
    if !next.value.changed {
      return true, managed - {key}, counts.(untouched := counts.untouched + 1), ids;
    }
    var error := tx.Replace(next.value.record, existing.version);
    if error.Some? {
      return;
    }
    return true, managed - {key}, counts.(updated := counts.updated + 1), ids;
  }

  lemma {:induction false} ApplyStopsAtFailure(lib: Library, job: Job, survey: Survey, now: int, p: Progress,
                                               plan: seq<Prepared>, n: nat)
    requires n <= |plan| && ApplyAll(lib, job, survey, now, p, plan[..n]).None?
    ensures ApplyAll(lib, job, survey, now, p, plan).None?
    decreases |plan|
  {
    if n == |plan| {
      assert plan[..n] == plan;
    } else {
      var before := plan[..|plan| - 1];
      assert before[..n] == plan[..n];
      ApplyStopsAtFailure(lib, job, survey, now, p, before, n);
    }
  }

  method ApplyPlan(tx: MemoryTransaction, job: Job, survey: Survey, now: int, plan: seq<Prepared>,
                   managed: map<string, Record>, ids: seq<string>)
    returns (ok: bool, left: map<string, Record>, counts: Counts)
    modifies tx
    ensures match ApplyAll(tx.lib, job, survey, now, Progress(old(tx.State()), managed, Counts(0, 0, 0, 0), ids), plan)
            case None => !ok
            case Some(q) => ok && q.state == tx.State() && q.managed == left && q.counts == counts
  {
    ghost var start := Progress(tx.State(), managed, Counts(0, 0, 0, 0), ids);
    left, counts := managed, Counts(0, 0, 0, 0);
    var unused := ids;
    for n := 0 to |plan|
      invariant ApplyAll(tx.lib, job, survey, now, start, plan[..n]) == Some(Progress(tx.State(), left, counts, unused))
    {
      hide ApplyOne;
      assert plan[..n + 1][..n] == plan[..n];
      ok, left, counts, unused := Apply(tx, job, survey, now, plan[n], left, counts, unused);
      if !ok {
        ApplyStopsAtFailure(tx.lib, job, survey, now, start, plan, n + 1);
        return;
      }
    }
    assert plan[..|plan|] == plan;
    ok := true;
  }

  /** The managed map and the store agree on what each entry is. */
  ghost predicate Points(s: StoreState, managed: map<string, Record>) {
    forall x | x in managed ::
      && ExternalKey(managed[x]) == x
      && StoredKey(managed[x]) in s.records && s.records[StoredKey(managed[x])] == managed[x]
  }

  ghost function KeysFor(managed: map<string, Record>, xs: set<string>): set<string> {
    set x | x in xs && x in managed :: StoredKey(managed[x])
  }

  /** Deletes what is left, in whatever order the map is walked. No deletion can fail. */
  method DeleteAll(tx: MemoryTransaction, managed: map<string, Record>, now: int, counts: Counts)
    returns (ok: bool, counts': Counts)
    requires Sound(tx.lib, tx.State()) && now != ZERO_TIME && counts.deleted == 0
    requires Points(tx.State(), managed)
    modifies tx
    ensures ok && tx.State() == Buried(old(tx.State()), StoredKeys(managed), now)
    ensures counts' == counts.(deleted := |managed|)
  {
    hide Sound, Buried, KeysFor, Points, StoredKeys, DeleteResult;
    ghost var s := tx.State();
    var rest := managed.Keys;
    var deleted := 0;
    NothingBuried(s, now);
    KeysForBounds(managed);
    assert managed.Keys - rest == {};
    while rest != {}
      invariant rest <= managed.Keys
      invariant tx.State() == Buried(s, KeysFor(managed, managed.Keys - rest), now)
      invariant Sound(tx.lib, tx.State())
      invariant deleted + |rest| == |managed.Keys|
      decreases |rest|
    {
      var x :| x in rest;
      ghost var gone := managed.Keys - rest;
      var record := managed[x];
      DeleteIsBuried(tx.lib, s, managed, gone, x, now);
      var error := tx.Delete(record.scope, record.resourceType, record.id, record.version, TombstoneFor(record, now));
      rest := rest - {x};
      assert managed.Keys - rest == gone + {x};
      if error.Some? {
        return false, counts;
      }
      deleted := deleted + 1;
    }
    assert managed.Keys - {} == managed.Keys;
    return true, counts.(deleted := deleted);
  }

  lemma KeysForBounds(managed: map<string, Record>)
    ensures KeysFor(managed, {}) == {} && KeysFor(managed, managed.Keys) == StoredKeys(managed)
  {
  }

  lemma DeleteIsBuried(lib: Library, s: StoreState, managed: map<string, Record>, gone: set<string>, x: string,
                       now: int)
    requires Sound(lib, s) && Points(s, managed) && now != ZERO_TIME
    requires gone <= managed.Keys && x in managed && x !in gone
    requires Sound(lib, Buried(s, KeysFor(managed, gone), now))
    ensures var r, before, after := managed[x], Buried(s, KeysFor(managed, gone), now),
      Buried(s, KeysFor(managed, gone + {x}), now);
      && DeleteResult(before, r.scope, r.resourceType, r.id, r.version, TombstoneFor(r, now)) == Ok(after)
      && Sound(lib, after)
  {
    hide Sound, Buried, ValidRecord, DeleteResult;
    var k := StoredKey(managed[x]);
    assert k !in KeysFor(managed, gone) by {
      forall y | y in gone
        ensures StoredKey(managed[y]) != k
      {
        assert ExternalKey(managed[y]) == y && ExternalKey(managed[x]) == x;
      }
    }
    assert KeysFor(managed, gone + {x}) == KeysFor(managed, gone) + {k};
    RecordsAreFiled(lib, s, k);
    BuryOne(lib, s, KeysFor(managed, gone), k, now);
  }

  lemma RecordsAreFiled(lib: Library, s: StoreState, k: string)
    requires Sound(lib, s) && k in s.records
    ensures ValidRecord(lib, s.records[k]) && k == StoredKey(s.records[k])
  {
  }

  // ---------- the whole operation ----------

  lemma LeftoversAreAsFound(lib: Library, job: Job, types: set<string>, s0: StoreState, survey: Survey,
                            plan: seq<Prepared>, p: Progress, places: seq<string>)
    requires Sound(lib, s0) && NoDuplicates(s0, job.scope, types) && survey == SurveyOf(s0, job.scope, types)
    requires Carries(lib, job, s0, survey, plan, p, places)
    ensures Points(p.state, p.managed)
  {
    hide Sound, Continues, NoDuplicates, LiveByKey, PlanKeys;
    ManagedIsOwned(lib, job, types, s0);
    DoomedAreUnplaced(lib, job, types, s0, survey, p.state, plan, places);
    hide AllPlaced, ManagedOf, OwnedKeys;
    forall x | x in p.managed
      ensures StoredKey(p.managed[x]) in p.state.records && p.state.records[StoredKey(p.managed[x])] == p.managed[x]
    {
      assert StoredKey(p.managed[x]) in StoredKeys(p.managed);
    }
  }

  /** The transaction callback. */
  method Callback(tx: MemoryTransaction, types: set<string>, job: Job, plan: seq<Prepared>, now: int, ids: seq<string>)
    returns (ok: bool, counts: Counts)
    requires Sound(tx.lib, tx.State()) && now != ZERO_TIME
    requires job.scope != "" && forall t | t in types :: ValidName(t)
    requires DistinctPlan(plan) && ForTypes(types, plan)
    modifies tx
    ensures match ReconcileResult(tx.lib, types, job, plan, old(tx.State()), now, ids)
            case None => !ok
            case Some(success) => ok && tx.State() == success.state && counts == success.counts
  {
    hide Sound, ApplyAll, Buried, NoDuplicates, Listable, LiveByKey, DistinctPlan, ForTypes, Points;
    ghost var s0 := tx.State();
    counts := Counts(0, 0, 0, 0);
    var survey, managed;
    ok, survey, managed := Look(tx, types, job);
    if !ok {
      return;
    }
    var left;
    ok, left, counts := ApplyPlan(tx, job, survey, now, plan, managed, ids);
    if !ok {
      return;
    }
    ghost var places := PlanIsCarriedOut(tx.lib, job, types, s0, survey, now, ids, plan);
    if job.deleteMissing {
      ghost var p := ApplyAll(tx.lib, job, survey, now, Progress(s0, managed, Counts(0, 0, 0, 0), ids), plan).value;
      LeftoversAreAsFound(tx.lib, job, types, s0, survey, plan, p, places);
      ok, counts := DeleteAll(tx, left, now, counts);
    }
  }

  /** Validates everything, then carries it out in one transaction: on failure nothing changes. */
  method Reconcile(store: MemoryStore, registry: Registry, job: Job, resources: seq<Desired>, now: int,
                   ids: seq<string>, cancelledBefore: bool, cancelledAfter: bool)
    returns (result: Option<Counts>)
    requires Sound(store.lib, store.state) && forall t | t in registry.types :: ValidName(t)
    modifies store
    ensures Sound(store.lib, store.state)
    ensures result.None? ==> store.state == old(store.state)
    ensures result.Some? ==>
      && PlanOf(registry, resources).Some?
      && ReconcileResult(store.lib, registry.types, job, PlanOf(registry, resources).value, old(store.state), now, ids)
         == Some(Success(store.state, result.value))
    ensures result.Some? <==>
      && job.scope != "" && ValidString(job.scope, 1024) && job.manager != "" && ValidString(job.manager, 1024)
      && PlanOf(registry, resources).Some? && !cancelledBefore && !cancelledAfter
      && ReconcileResult(store.lib, registry.types, job, PlanOf(registry, resources).value, old(store.state), now,
                         ids).Some?
  {
    hide Sound, ReconcileResult, DistinctPlan, ForTypes;
    if job.scope == "" || !ValidString(job.scope, 1024) || job.manager == "" || !ValidString(job.manager, 1024) {
      return None;
    }
    var plan := MakePlan(registry, resources);
    if plan.None? {
      return None;
    }
    NoTimeNoResult(store.lib, registry.types, job, plan.value, store.state, ids);
    if now == ZERO_TIME || cancelledBefore {
      return None;
    }
    PlansAreUsable(registry, resources);
    var working := store.Begin();
    var ok, counts := Callback(working, registry.types, job, plan.value, now, ids);
    if !ok || cancelledAfter {
      return None;
    }
    ResultIsSound(store.lib, registry.types, job, plan.value, store.state, now, ids);
    store.Commit(working);
    return Some(counts);
  }

  lemma NoTimeNoResult(lib: Library, types: set<string>, job: Job, plan: seq<Prepared>, s: StoreState, ids: seq<string>)
    ensures ReconcileResult(lib, types, job, plan, s, ZERO_TIME, ids) == None
  {
  }

  lemma ResultIsSound(lib: Library, types: set<string>, job: Job, plan: seq<Prepared>, s: StoreState, now: int,
                      ids: seq<string>)
    requires Sound(lib, s) && DistinctPlan(plan) && ForTypes(types, plan)
    requires ReconcileResult(lib, types, job, plan, s, now, ids).Some?
    ensures Sound(lib, ReconcileResult(lib, types, job, plan, s, now, ids).value.state)
  {
    var _ := ReconcileDelivers(lib, types, job, plan, s, now, ids);
  }
}
