/** How a plan is carried out: where each desired resource ends up, and what deletion leaves. */
module ReconcilePlan {
  import opened Values
  import opened Records
  import opened Memory
  import opened StoreSafety
  import opened Order
  import opened Reconciler

  // ---------- carrying out the plan ----------

  ghost predicate Surveys(survey: Survey, s: StoreState, scope: string, types: set<string>) {
    && NoDuplicates(s, scope, types)
    && survey.live == LiveByKey(s, scope, types)
    && survey.tombstoned == TombstonedKeys(s, scope, types)
  }

  ghost function PlanKeys(plan: seq<Prepared>): set<string> {
    set i | 0 <= i < |plan| :: PreparedKey(plan[i])
  }

  ghost predicate DistinctPlan(plan: seq<Prepared>) {
    forall i, j | 0 <= i < j < |plan| :: PreparedKey(plan[i]) != PreparedKey(plan[j])
  }

  /** The record holds the desired state. */
  ghost predicate Holds(lib: Library, job: Job, r: Record, d: Prepared) {
    && r.scope == job.scope && r.manager == job.manager
    && r.resourceType == d.resourceType && r.externalId == d.externalId
    && lib.encode(d.document) == Some(r.data)
  }

  /** The desired resource lives under this key: in the record that was live for its external
      identity before, still the same resource, or in a new record if there was none. */
  ghost predicate Placed(lib: Library, job: Job, s0: StoreState, survey: Survey, s: StoreState, d: Prepared,
                         k: string) {
    && k in s.records && Holds(lib, job, s.records[k], d)
    && PreparedKey(d) !in survey.tombstoned
    && if k in s0.records
       then PreparedKey(d) in survey.live && survey.live[PreparedKey(d)] == s0.records[k]
         && Follows(s0.records[k], s.records[k])
       else PreparedKey(d) !in survey.live
  }

  ghost predicate AllPlaced(lib: Library, job: Job, s0: StoreState, survey: Survey, s: StoreState,
                            plan: seq<Prepared>, places: seq<string>) {
    && |places| == |plan| && Distinct(places)
    && forall i | 0 <= i < |plan| :: Placed(lib, job, s0, survey, s, plan[i], places[i])
  }

  /** Only the places of the plan differ from the state before. */
  ghost predicate OnlyAt(s0: StoreState, s: StoreState, places: seq<string>) {
    && s.tombstones == s0.tombstones
    && (forall k | k in s0.records :: k in s.records && (k !in places ==> s.records[k] == s0.records[k]))
    && (forall k | k in s.records :: k in s0.records || k in places)
  }

  ghost predicate Counted(counts: Counts, planned: nat, owned: nat, left: nat) {
    && counts.deleted == 0
    && counts.created + counts.updated + counts.untouched == planned
    && counts.updated + counts.untouched + left == owned
  }

  lemma LiveRecord(lib: Library, s: StoreState, scope: string, types: set<string>, d: Prepared) returns (k: string)
    requires Sound(lib, s) && NoDuplicates(s, scope, types)
    requires PreparedKey(d) in LiveByKey(s, scope, types)
    ensures k in s.records && LiveByKey(s, scope, types)[PreparedKey(d)] == s.records[k]
    ensures InReach(s.records[k], scope, types) && k == StoredKey(s.records[k]) && ValidRecord(lib, s.records[k])
    ensures s.records[k].resourceType == d.resourceType && s.records[k].externalId == d.externalId
  {
    hide ValidRecord, IndexesUnique, IdsUnique;
    k :| k in LiveKeys(s, scope, types) && ExternalKey(s.records[k]) == PreparedKey(d);
    var r := s.records[k];
    NoNulInRecord(lib, r);
    KeysAreInjective(r.resourceType, r.externalId, d.resourceType, d.externalId);
  }

  lemma NoNulInRecord(lib: Library, r: Record)
    requires ValidRecord(lib, r)
    ensures '\0' !in r.resourceType && '\0' !in r.externalId
  {
    ValidNameHasNoNul(r.resourceType);
    ValidTextHasNoNul(r.externalId, MAXIMUM_STRING_BYTES);
  }

  /** The shape of a replacement, whatever the version function does. */
  lemma ReplacementShape(lib: Library, current: Record, d: Prepared, now: int)
    requires ReplacementRecord(lib, current, d.externalId, d.document, d.indexes, now, None).Some?
    ensures var next := ReplacementRecord(lib, current, d.externalId, d.document, d.indexes, now, None).value;
      && Follows(current, next.record)
      && next.record.externalId == d.externalId
      && lib.encode(d.document) == Some(next.record.data)
      && (!next.changed ==> next.record == current)
  {
    hide ValidRecord;
  }

  lemma NewShape(lib: Library, job: Job, d: Prepared, id: string, now: int)
    requires NewRecord(lib, job.scope, job.manager, d.resourceType, id, d.externalId, d.document, d.indexes, now,
                       "").Some?
    ensures var r := NewRecord(lib, job.scope, job.manager, d.resourceType, id, d.externalId, d.document, d.indexes,
                               now, "").value;
      Holds(lib, job, r, d) && r.id == id
  {
    hide ValidRecord;
  }

  /** Placing one more resource leaves the others where they are. */
  lemma PlaceMore(lib: Library, job: Job, s0: StoreState, survey: Survey, s: StoreState, next: StoreState,
                  plan: seq<Prepared>, places: seq<string>, d: Prepared, k: string)
    requires AllPlaced(lib, job, s0, survey, s, plan, places) && OnlyAt(s0, s, places)
    requires k !in places
    requires next.tombstones == s.tombstones
    requires k in next.records && next.records == s.records[k := next.records[k]]
    requires Placed(lib, job, s0, survey, next, d, k)
    ensures AllPlaced(lib, job, s0, survey, next, plan + [d], places + [k])
    ensures OnlyAt(s0, next, places + [k])
  {
    hide Holds;
    assert forall x :: x in places + [k] <==> x in places || x == k;
    forall i | 0 <= i < |plan|
      ensures Placed(lib, job, s0, survey, next, plan[i], places[i])
    {
      assert places[i] in places;
    }
  }

  lemma LiveIsByExternalKey(s: StoreState, scope: string, types: set<string>, x: string)
    requires NoDuplicates(s, scope, types) && x in LiveByKey(s, scope, types)
    ensures ExternalKey(LiveByKey(s, scope, types)[x]) == x
  {
    var k :| k in LiveKeys(s, scope, types) && ExternalKey(s.records[k]) == x;
    assert LiveByKey(s, scope, types)[ExternalKey(s.records[k])] == s.records[k];
  }

  lemma PlaceIsFree(lib: Library, job: Job, types: set<string>, s0: StoreState, survey: Survey, s: StoreState,
                    plan: seq<Prepared>, places: seq<string>, d: Prepared, k: string)
    requires Surveys(survey, s0, job.scope, types)
    requires AllPlaced(lib, job, s0, survey, s, plan, places)
    requires PreparedKey(d) !in PlanKeys(plan)
    requires PreparedKey(d) in survey.live && k in s0.records && survey.live[PreparedKey(d)] == s0.records[k]
    ensures k !in places
  {
    LiveIsByExternalKey(s0, job.scope, types, PreparedKey(d));
    forall i | 0 <= i < |plan|
      ensures places[i] != k
    {
      assert Placed(lib, job, s0, survey, s, plan[i], places[i]);
      assert PreparedKey(plan[i]) in PlanKeys(plan);
      if places[i] == k {
        LiveIsByExternalKey(s0, job.scope, types, PreparedKey(plan[i]));
      }
    }
  }

  ghost predicate StateCarries(lib: Library, job: Job, s0: StoreState, survey: Survey, plan: seq<Prepared>,
                               s: StoreState, places: seq<string>) {
    && Sound(lib, s) && Continues(s0, s)
    && AllPlaced(lib, job, s0, survey, s, plan, places)
    && OnlyAt(s0, s, places)
  }

  ghost predicate CountsCarry(job: Job, survey: Survey, plan: seq<Prepared>, managed: map<string, Record>,
                              counts: Counts) {
    && managed == ManagedOf(survey.live, job.manager) - PlanKeys(plan)
    && Counted(counts, |plan|, |ManagedOf(survey.live, job.manager)|, |managed|)
  }

  ghost predicate Carries(lib: Library, job: Job, s0: StoreState, survey: Survey, plan: seq<Prepared>, p: Progress,
                          places: seq<string>) {
    StateCarries(lib, job, s0, survey, plan, p.state, places) && CountsCarry(job, survey, plan, p.managed, p.counts)
  }

  lemma PlanKeysGrow(plan: seq<Prepared>, d: Prepared)
    ensures PlanKeys(plan + [d]) == PlanKeys(plan) + {PreparedKey(d)}
  {
    var all := plan + [d];
    assert forall i | 0 <= i < |plan| :: all[i] == plan[i];
    assert all[|plan|] == d;
  }

  lemma ManagedShrinks(managed: map<string, Record>, gone: set<string>, key: string)
    ensures key in managed && key !in gone ==> |managed - gone| == |managed - (gone + {key})| + 1
    ensures key !in managed ==> managed - gone == managed - (gone + {key})
    ensures managed - gone - {key} == managed - (gone + {key})
  {
    var before, after := managed - gone, managed - (gone + {key});
    assert after == before - {key};
    if key in managed && key !in gone {
      assert before.Keys == after.Keys + {key};
      assert |before| == |before.Keys| && |after| == |after.Keys|;
    }
  }

  lemma CountCreated(job: Job, survey: Survey, plan: seq<Prepared>, managed: map<string, Record>, counts: Counts,
                     d: Prepared)
    requires CountsCarry(job, survey, plan, managed, counts)
    requires PreparedKey(d) !in survey.live
    ensures CountsCarry(job, survey, plan + [d], managed, counts.(created := counts.created + 1))
  {
    PlanKeysGrow(plan, d);
    ManagedShrinks(ManagedOf(survey.live, job.manager), PlanKeys(plan), PreparedKey(d));
    hide PlanKeys;
  }

  lemma CountUpdated(job: Job, survey: Survey, plan: seq<Prepared>, managed: map<string, Record>, counts: Counts,
                     d: Prepared, next: Counts)
    requires CountsCarry(job, survey, plan, managed, counts)
    requires PreparedKey(d) in survey.live && survey.live[PreparedKey(d)].manager == job.manager
    requires PreparedKey(d) !in PlanKeys(plan)
    requires next.created == counts.created && next.deleted == counts.deleted
    requires next.updated + next.untouched == counts.updated + counts.untouched + 1
    ensures CountsCarry(job, survey, plan + [d], managed - {PreparedKey(d)}, next)
  {
    PlanKeysGrow(plan, d);
    ManagedShrinks(ManagedOf(survey.live, job.manager), PlanKeys(plan), PreparedKey(d));
    hide PlanKeys;
  }

  /** One created resource: a record under a key that was free. */
  lemma ApplyCreates(lib: Library, job: Job, survey: Survey, now: int, p: Progress, d: Prepared)
    returns (record: Record)
    requires Sound(lib, p.state)
    requires PreparedKey(d) !in survey.live && ApplyOne(lib, job, survey, now, p, d).Some?
    ensures var q, k := ApplyOne(lib, job, survey, now, p, d).value, StoredKey(record);
      && PreparedKey(d) !in survey.tombstoned
      && Holds(lib, job, record, d)
      && k !in p.state.records
      && q.state == p.state.(records := p.state.records[k := record])
      && Sound(lib, q.state) && Continues(p.state, q.state)
      && q.managed == p.managed
      && q.counts == p.counts.(created := p.counts.created + 1)
  {
    hide ValidRecord, NewRecord, Sound, Continues, IndexConflict, Holds;
    record := NewRecord(lib, job.scope, job.manager, d.resourceType, p.ids[0], d.externalId, d.document, d.indexes, now,
                        "").value;
    NewShape(lib, job, d, p.ids[0], now);
    CreateKeepsSound(lib, p.state, record);
  }

  /** One resource that existed: the same record, replaced or left alone. */
  lemma ApplyUpdates(lib: Library, job: Job, survey: Survey, now: int, p: Progress, d: Prepared, k: string)
    returns (record: Record)
    requires Sound(lib, p.state)
    requires PreparedKey(d) in survey.live && ApplyOne(lib, job, survey, now, p, d).Some?
    requires k in p.state.records && survey.live[PreparedKey(d)] == p.state.records[k]
      && k == StoredKey(p.state.records[k])
    requires p.state.records[k].scope == job.scope && p.state.records[k].resourceType == d.resourceType
    ensures var q := ApplyOne(lib, job, survey, now, p, d).value;
      && PreparedKey(d) !in survey.tombstoned
      && survey.live[PreparedKey(d)].manager == job.manager
      && Holds(lib, job, record, d)
      && Follows(p.state.records[k], record)
      && q.state == p.state.(records := p.state.records[k := record])
      && Sound(lib, q.state) && Continues(p.state, q.state)
      && q.managed == p.managed - {PreparedKey(d)}
      && q.counts.created == p.counts.created && q.counts.deleted == p.counts.deleted
      && q.counts.updated + q.counts.untouched == p.counts.updated + p.counts.untouched + 1
  {
    hide ValidRecord, ReplacementRecord, Sound, Continues, IndexConflict;
    var current := survey.live[PreparedKey(d)];
    ReplacementShape(lib, current, d, now);
    var next := ReplacementRecord(lib, current, d.externalId, d.document, d.indexes, now, None).value;
    record := next.record;
    if next.changed {
      ReplaceKeepsSound(lib, p.state, record, current.version);
    } else {
      ContinuesItself(p.state);
      assert p.state.records == p.state.records[k := record];
    }
  }

  lemma CreatePlaces(lib: Library, job: Job, s0: StoreState, survey: Survey, now: int,
                     plan: seq<Prepared>, p: Progress, places: seq<string>, d: Prepared) returns (k: string)
    requires Carries(lib, job, s0, survey, plan, p, places)
    requires PreparedKey(d) !in survey.live
    requires ApplyOne(lib, job, survey, now, p, d).Some?
    ensures Carries(lib, job, s0, survey, plan + [d], ApplyOne(lib, job, survey, now, p, d).value, places + [k])
  {
    hide ApplyOne, Sound, Continues, CountsCarry, Holds;
    var q := ApplyOne(lib, job, survey, now, p, d).value;
    var record := ApplyCreates(lib, job, survey, now, p, d);
    k := StoredKey(record);
    ContinuesIsTransitive(lib, s0, p.state, q.state);
    forall i | 0 <= i < |places|
      ensures places[i] != k
    {
      assert Placed(lib, job, s0, survey, p.state, plan[i], places[i]);
    }
    PlaceMore(lib, job, s0, survey, p.state, q.state, plan, places, d, k);
    CountCreated(job, survey, plan, p.managed, p.counts, d);
    hide AllPlaced, OnlyAt;
  }

  lemma UpdatePlaces(lib: Library, job: Job, types: set<string>, s0: StoreState, survey: Survey, now: int,
                     plan: seq<Prepared>, p: Progress, places: seq<string>, d: Prepared) returns (k: string)
    requires Sound(lib, s0) && Surveys(survey, s0, job.scope, types)
    requires Carries(lib, job, s0, survey, plan, p, places)
    requires PreparedKey(d) !in PlanKeys(plan) && PreparedKey(d) in survey.live
    requires ApplyOne(lib, job, survey, now, p, d).Some?
    ensures Carries(lib, job, s0, survey, plan + [d], ApplyOne(lib, job, survey, now, p, d).value, places + [k])
  {
    hide ApplyOne, Sound, Continues, CountsCarry, Holds, ValidRecord, AllPlaced;
    var q := ApplyOne(lib, job, survey, now, p, d).value;
    k := LiveRecord(lib, s0, job.scope, types, d);
    PlaceIsFree(lib, job, types, s0, survey, p.state, plan, places, d, k);
    var record := ApplyUpdates(lib, job, survey, now, p, d, k);
    ContinuesIsTransitive(lib, s0, p.state, q.state);
    PlaceMore(lib, job, s0, survey, p.state, q.state, plan, places, d, k);
    CountUpdated(job, survey, plan, p.managed, p.counts, d, q.counts);
    hide OnlyAt;
  }

  lemma {:induction false} PlanIsCarriedOut(lib: Library, job: Job, types: set<string>, s0: StoreState, survey: Survey,
                                            now: int, ids: seq<string>,
                                            plan: seq<Prepared>) returns (places: seq<string>)
    requires Sound(lib, s0) && Surveys(survey, s0, job.scope, types) && DistinctPlan(plan)
    requires var start := Progress(s0, ManagedOf(survey.live, job.manager), Counts(0, 0, 0, 0), ids);
      ApplyAll(lib, job, survey, now, start, plan).Some?
    ensures var start := Progress(s0, ManagedOf(survey.live, job.manager), Counts(0, 0, 0, 0), ids);
      Carries(lib, job, s0, survey, plan, ApplyAll(lib, job, survey, now, start, plan).value, places)
  {
    hide ApplyOne, Sound, Continues, Surveys;
    var start := Progress(s0, ManagedOf(survey.live, job.manager), Counts(0, 0, 0, 0), ids);
    if plan == [] {
      places := [];
      NothingCarried(lib, job, s0, survey, ids);
    } else {
      var before, d := plan[..|plan| - 1], plan[|plan| - 1];
      LastIsNew(plan);
      hide Carries, PlanKeys, DistinctPlan;
      assert plan == before + [d];
      var p := ApplyAll(lib, job, survey, now, start, before).value;
      places := PlanIsCarriedOut(lib, job, types, s0, survey, now, ids, before);
      var k;
      if PreparedKey(d) in survey.live {
        k := UpdatePlaces(lib, job, types, s0, survey, now, before, p, places, d);
      } else {
        k := CreatePlaces(lib, job, s0, survey, now, before, p, places, d);
      }
      places := places + [k];
    }
  }

  lemma LastIsNew(plan: seq<Prepared>)
    requires DistinctPlan(plan) && plan != []
    ensures DistinctPlan(plan[..|plan| - 1])
    ensures PreparedKey(plan[|plan| - 1]) !in PlanKeys(plan[..|plan| - 1])
  {
  }

  lemma NothingCarried(lib: Library, job: Job, s0: StoreState, survey: Survey, ids: seq<string>)
    requires Sound(lib, s0)
    ensures Carries(lib, job, s0, survey, [],
                    Progress(s0, ManagedOf(survey.live, job.manager), Counts(0, 0, 0, 0), ids), [])
  {
    hide Sound, Continues;
    ContinuesItself(s0);
    assert PlanKeys([]) == {};
    var managed := ManagedOf(survey.live, job.manager);
    assert managed - {} == managed;
  }

  // ---------- deleting what is missing ----------

  lemma BuriedGrows(s: StoreState, keys: set<string>, k: string, now: int)
    requires k !in keys && k in s.records
    ensures k in Buried(s, keys, now).records && Buried(s, keys, now).records[k] == s.records[k]
    ensures Buried(s, keys + {k}, now)
         == StoreState(Buried(s, keys, now).records - {k},
                       Buried(s, keys, now).tombstones[k := TombstoneFor(s.records[k], now)])
  {
    var before, after := Buried(s, keys, now), Buried(s, keys + {k}, now);
    hide TombstoneFor;
    assert after.records == before.records - {k};
    assert after.tombstones == before.tombstones[k := TombstoneFor(s.records[k], now)];
  }

  lemma BuryOne(lib: Library, s: StoreState, keys: set<string>, k: string, now: int)
    requires k !in keys && k in s.records && k == StoredKey(s.records[k]) && ValidRecord(lib, s.records[k])
    requires Sound(lib, Buried(s, keys, now)) && now != ZERO_TIME
    ensures var r := s.records[k];
      DeleteResult(Buried(s, keys, now), r.scope, r.resourceType, r.id, r.version, TombstoneFor(r, now))
      == Ok(Buried(s, keys + {k}, now))
    ensures Sound(lib, Buried(s, keys + {k}, now))
    ensures Continues(Buried(s, keys, now), Buried(s, keys + {k}, now))
  {
    var before, r := Buried(s, keys, now), s.records[k];
    assert r.version != "";
    BuriedGrows(s, keys, k, now);
    hide ValidRecord, Sound, Continues, Buried;
    LiveKeyIsNotTombstoned(lib, before, k);
    DeleteKeepsSound(lib, before, r.scope, r.resourceType, r.id, r.version, TombstoneFor(r, now));
  }

  lemma NothingBuried(s: StoreState, now: int)
    ensures Buried(s, {}, now) == s
  {
    assert s.records - {} == s.records;
    assert Buried(s, {}, now).tombstones == s.tombstones;
  }

  lemma {:induction false} BuriedIsSound(lib: Library, s: StoreState, keys: set<string>, now: int)
    requires Sound(lib, s) && keys <= s.records.Keys && now != ZERO_TIME
    ensures Sound(lib, Buried(s, keys, now)) && Continues(s, Buried(s, keys, now))
    decreases keys
  {
    hide ValidRecord, Continues, IdsUnique, IndexesUnique;
    if keys == {} {
      NothingBuried(s, now);
      ContinuesItself(s);
    } else {
      var k :| k in keys;
      var fewer := keys - {k};
      BuriedIsSound(lib, s, fewer, now);
      assert fewer + {k} == keys;
      BuryOne(lib, s, fewer, k, now);
      ContinuesIsTransitive(lib, s, Buried(s, fewer, now), Buried(s, keys, now));
    }
  }
}
