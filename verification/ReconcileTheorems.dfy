/** What a successful reconciliation leaves behind. */
module ReconcileTheorems {
  import opened Records
  import opened Memory
  import opened StoreSafety
  import opened Order
  import opened Reconciler
  import opened ReconcilePlan

  /** The records a job is responsible for. */
  predicate Owned(job: Job, types: set<string>, r: Record) {
    r.scope == job.scope && r.manager == job.manager && r.resourceType in types && r.externalId != ""
  }

  function OwnedKeys(job: Job, types: set<string>, s: StoreState): set<string> {
    set k | k in s.records && Owned(job, types, s.records[k])
  }

  function SurveyOf(s: StoreState, scope: string, types: set<string>): Survey
    requires NoDuplicates(s, scope, types)
  {
    Survey(LiveByKey(s, scope, types), TombstonedKeys(s, scope, types))
  }

  /** managed holds exactly the records stored under the given keys, by external identity. */
  ghost predicate Mirrors(managed: map<string, Record>, s: StoreState, keys: set<string>) {
    && (forall x | x in managed ::
          && ExternalKey(managed[x]) == x
          && StoredKey(managed[x]) in keys && StoredKey(managed[x]) in s.records
          && s.records[StoredKey(managed[x])] == managed[x])
    && (forall k | k in keys ::
          && k in s.records && StoredKey(s.records[k]) == k
          && ExternalKey(s.records[k]) in managed && managed[ExternalKey(s.records[k])] == s.records[k])
  }

  lemma {:induction false} MirrorsSize(managed: map<string, Record>, s: StoreState, keys: set<string>)
    requires Mirrors(managed, s, keys)
    ensures |managed| == |keys|
    decreases keys
  {
    if keys == {} {
      assert managed.Keys == {};
    } else {
      var k :| k in keys;
      var x := ExternalKey(s.records[k]);
      var rest := managed - {x};
      forall y | y in rest
        ensures StoredKey(rest[y]) in keys - {k}
      {
        assert rest[y] == managed[y];
      }
      MirrorsSize(rest, s, keys - {k});
      assert managed.Keys == rest.Keys + {x};
      assert |managed| == |managed.Keys| && |rest| == |rest.Keys|;
    }
  }

  lemma ManagedIsOwned(lib: Library, job: Job, types: set<string>, s: StoreState)
    requires Sound(lib, s) && NoDuplicates(s, job.scope, types)
    ensures Mirrors(ManagedOf(LiveByKey(s, job.scope, types), job.manager), s, OwnedKeys(job, types, s))
  {
    hide ValidRecord, IdsUnique, IndexesUnique;
    var live := LiveByKey(s, job.scope, types);
    forall k | k in LiveKeys(s, job.scope, types)
      ensures ExternalKey(s.records[k]) in live && live[ExternalKey(s.records[k])] == s.records[k]
    {
    }
    forall x | x in live
      ensures ExternalKey(live[x]) == x && StoredKey(live[x]) in LiveKeys(s, job.scope, types)
              && s.records[StoredKey(live[x])] == live[x]
    {
      var k :| k in LiveKeys(s, job.scope, types) && ExternalKey(s.records[k]) == x;
    }
    hide LiveByKey, NoDuplicates, ExternalKey;
  }

  // ---------- the outcome ----------

  predicate ForTypes(types: set<string>, plan: seq<Prepared>) {
    forall d | d in plan :: d.resourceType in types && d.externalId != ""
  }

  /** Desired resource d is stored under k after the job; if k existed before it is the record
      that had this external identity, and still the same resource. */
  ghost predicate Delivered(lib: Library, job: Job, types: set<string>, s0: StoreState, s1: StoreState, d: Prepared,
                            k: string) {
    && k in s1.records && Holds(lib, job, s1.records[k], d)
    && (k in s0.records ==> ExternalKey(s0.records[k]) == PreparedKey(d) && Follows(s0.records[k], s1.records[k]))
    && (k !in s0.records ==> forall j | j in LiveKeys(s0, job.scope, types) ::
      ExternalKey(s0.records[j]) != PreparedKey(d))
  }

  /** Which owned records remain: the desired ones, and the others only without deletion. */
  ghost predicate OwnsExactly(job: Job, types: set<string>, s0: StoreState, s1: StoreState, places: seq<string>) {
    forall k | k in s1.records ::
      Owned(job, types, s1.records[k]) <==>
        k in places || (!job.deleteMissing && k in s0.records && Owned(job, types, s0.records[k]))
  }

  /** Records of other managers, scopes and types, and those without external identity, are
      untouched; owned records change only where a desired resource is placed. */
  ghost predicate OthersUntouched(job: Job, types: set<string>, s0: StoreState, s1: StoreState, places: seq<string>) {
    && (forall k | k in s0.records && !Owned(job, types, s0.records[k]) :: k in s1.records && k !in places)
    && (forall k | k in s0.records && k in s1.records && k !in places :: s1.records[k] == s0.records[k])
    && (forall k | k in s1.records && k !in s0.records :: k in places)
  }

  /** What disappeared left its own tombstone, and nothing else did. */
  ghost predicate TombstonesFor(s0: StoreState, s1: StoreState, now: int) {
    && (forall k | k in s0.records && k !in s1.records ::
      k in s1.tombstones &&
          var r := s0.records[k];
          s1.tombstones[k] == Tombstone(r.scope, r.resourceType, r.id, r.externalId, r.manager, r.version, now))
    && (forall k | k in s1.tombstones && k !in s0.tombstones :: k in s0.records && k !in s1.records)
  }

  ghost predicate CountsAddUp(job: Job, types: set<string>, s0: StoreState, plan: seq<Prepared>, counts: Counts) {
    && counts.created + counts.updated + counts.untouched == |plan|
    && (job.deleteMissing ==> counts.updated + counts.untouched + counts.deleted == |OwnedKeys(job, types, s0)|)
    && (!job.deleteMissing ==> counts.deleted == 0 && counts.updated + counts.untouched <= |OwnedKeys(job, types, s0)|)
  }

  ghost predicate Reconciled(lib: Library, job: Job, types: set<string>, s0: StoreState, s1: StoreState,
                             plan: seq<Prepared>, places: seq<string>, now: int, counts: Counts) {
    && Sound(lib, s1) && Continues(s0, s1)
    && |places| == |plan| && Distinct(places)
    && (forall i | 0 <= i < |plan| :: Delivered(lib, job, types, s0, s1, plan[i], places[i]))
    && OwnsExactly(job, types, s0, s1, places)
    && OthersUntouched(job, types, s0, s1, places)
    && TombstonesFor(s0, s1, now)
    && CountsAddUp(job, types, s0, plan, counts)
  }

  lemma PlacedIsDelivered(lib: Library, job: Job, types: set<string>, s0: StoreState, survey: Survey, s: StoreState,
                          d: Prepared, k: string)
    requires NoDuplicates(s0, job.scope, types) && survey == SurveyOf(s0, job.scope, types)
    requires Placed(lib, job, s0, survey, s, d, k)
    ensures Delivered(lib, job, types, s0, s, d, k)
  {
    if k in s0.records {
      LiveIsByExternalKey(s0, job.scope, types, PreparedKey(d));
    } else {
      forall j | j in LiveKeys(s0, job.scope, types)
        ensures ExternalKey(s0.records[j]) in survey.live
      {
      }
    }
  }

  /** What is left in the managed map is exactly what is owned and not desired. */
  lemma DoomedAreUnplaced(lib: Library, job: Job, types: set<string>, s0: StoreState, survey: Survey, s: StoreState,
                          plan: seq<Prepared>, places: seq<string>)
    requires Sound(lib, s0) && NoDuplicates(s0, job.scope, types) && survey == SurveyOf(s0, job.scope, types)
    requires AllPlaced(lib, job, s0, survey, s, plan, places)
    ensures StoredKeys(ManagedOf(survey.live, job.manager) - PlanKeys(plan))
         == OwnedKeys(job, types, s0) - set k | k in places
  {
    hide ValidRecord, IdsUnique, IndexesUnique, Holds, NoDuplicates, LiveByKey, Sound;
    var managed := ManagedOf(survey.live, job.manager);
    ManagedIsOwned(lib, job, types, s0);
    var doomed := StoredKeys(managed - PlanKeys(plan));
    forall k | k in doomed
      ensures k in OwnedKeys(job, types, s0) && k !in places
    {
      var x :| x in managed - PlanKeys(plan) && StoredKey(managed[x]) == k;
      forall i | 0 <= i < |places|
        ensures places[i] != k
      {
        assert Placed(lib, job, s0, survey, s, plan[i], places[i]);
        assert PreparedKey(plan[i]) in PlanKeys(plan);
        if places[i] == k {
          LiveIsByExternalKey(s0, job.scope, types, PreparedKey(plan[i]));
        }
      }
    }
    forall k | k in OwnedKeys(job, types, s0) && k !in places
      ensures k in doomed
    {
      var x := ExternalKey(s0.records[k]);
      forall i | 0 <= i < |plan|
        ensures PreparedKey(plan[i]) != x
      {
        assert Placed(lib, job, s0, survey, s, plan[i], places[i]);
        assert places[i] in places;
        if PreparedKey(plan[i]) == x && places[i] in s0.records {
          assert s0.records[places[i]] == s0.records[k];
          OneKeyPerRecord(lib, s0, places[i], k);
        }
      }
      assert x in managed - PlanKeys(plan);
    }
  }

  lemma OneKeyPerRecord(lib: Library, s: StoreState, j: string, k: string)
    requires Sound(lib, s) && j in s.records && k in s.records && s.records[j] == s.records[k]
    ensures j == k
  {
  }

  ghost predicate PlacesOwned(job: Job, types: set<string>, s0: StoreState, s: StoreState, places: seq<string>) {
    forall k | k in places ::
      && k in s.records && Owned(job, types, s.records[k])
      && (k in s0.records ==> Owned(job, types, s0.records[k]))
  }

  lemma LiveRecordIsOwned(lib: Library, job: Job, types: set<string>, s0: StoreState, survey: Survey, d: Prepared,
                          k: string)
    requires Sound(lib, s0) && NoDuplicates(s0, job.scope, types) && survey == SurveyOf(s0, job.scope, types)
    requires k in s0.records && PreparedKey(d) in survey.live && survey.live[PreparedKey(d)] == s0.records[k]
    requires s0.records[k].manager == job.manager
    ensures Owned(job, types, s0.records[k])
  {
    hide Sound, ValidRecord;
    var _ := LiveRecord(lib, s0, job.scope, types, d);
  }

  lemma PlacesAreOwned(lib: Library, job: Job, types: set<string>, s0: StoreState, survey: Survey, s: StoreState,
                       plan: seq<Prepared>, places: seq<string>)
    requires Sound(lib, s0) && NoDuplicates(s0, job.scope, types) && survey == SurveyOf(s0, job.scope, types)
    requires ForTypes(types, plan) && AllPlaced(lib, job, s0, survey, s, plan, places)
    ensures PlacesOwned(job, types, s0, s, places)
  {
    hide Sound, NoDuplicates, LiveByKey;
    forall k | k in places
      ensures k in s.records && Owned(job, types, s.records[k])
        && (k in s0.records ==> Owned(job, types, s0.records[k]))
    {
      var i :| 0 <= i < |places| && places[i] == k;
      assert Placed(lib, job, s0, survey, s, plan[i], k);
      assert plan[i] in plan;
      if k in s0.records {
        LiveRecordIsOwned(lib, job, types, s0, survey, plan[i], k);
      }
    }
  }

  /** The state after the plan, without the owned records that have no place. */
  function Swept(job: Job, types: set<string>, s0: StoreState, s: StoreState, places: seq<string>,
                 now: int): StoreState {
    if job.deleteMissing then Buried(s, OwnedKeys(job, types, s0) - (set k | k in places), now) else s
  }

  lemma SweptKeepsPlaces(job: Job, types: set<string>, s0: StoreState, s: StoreState, places: seq<string>, now: int)
    requires PlacesOwned(job, types, s0, s, places)
    ensures forall k | k in places ::
      k in Swept(job, types, s0, s, places, now).records
        && Swept(job, types, s0, s, places, now).records[k] == s.records[k]
  {
  }

  lemma SweptOwns(job: Job, types: set<string>, s0: StoreState, s: StoreState, places: seq<string>, now: int)
    requires OnlyAt(s0, s, places) && PlacesOwned(job, types, s0, s, places)
    ensures OwnsExactly(job, types, s0, Swept(job, types, s0, s, places, now), places)
  {
    hide Owned;
  }

  lemma SweptSparesOthers(job: Job, types: set<string>, s0: StoreState, s: StoreState, places: seq<string>, now: int)
    requires OnlyAt(s0, s, places) && PlacesOwned(job, types, s0, s, places)
    ensures OthersUntouched(job, types, s0, Swept(job, types, s0, s, places, now), places)
    ensures TombstonesFor(s0, Swept(job, types, s0, s, places, now), now)
  {
    hide Owned;
  }

  lemma SweptIsSound(lib: Library, job: Job, types: set<string>, s0: StoreState, s: StoreState, places: seq<string>,
                     now: int)
    requires Sound(lib, s) && Continues(s0, s) && OnlyAt(s0, s, places) && now != ZERO_TIME
    ensures Sound(lib, Swept(job, types, s0, s, places, now)) && Continues(s0, Swept(job, types, s0, s, places, now))
  {
    hide Sound, Continues, Buried;
    if job.deleteMissing {
      var doomed := OwnedKeys(job, types, s0) - (set k | k in places);
      BuriedIsSound(lib, s, doomed, now);
      ContinuesIsTransitive(lib, s0, s, Buried(s, doomed, now));
    }
  }

  lemma SweptDelivers(lib: Library, job: Job, types: set<string>, s0: StoreState, survey: Survey, s: StoreState,
                      plan: seq<Prepared>, places: seq<string>, now: int)
    requires Sound(lib, s0) && NoDuplicates(s0, job.scope, types) && survey == SurveyOf(s0, job.scope, types)
    requires PlacesOwned(job, types, s0, s, places) && AllPlaced(lib, job, s0, survey, s, plan, places)
    ensures forall i | 0 <= i < |plan| ::
      Delivered(lib, job, types, s0, Swept(job, types, s0, s, places, now), plan[i], places[i])
  {
    hide Sound, NoDuplicates, LiveByKey, PlacesOwned, Holds;
    SweptKeepsPlaces(job, types, s0, s, places, now);
    hide Swept;
    forall i | 0 <= i < |plan|
      ensures Delivered(lib, job, types, s0, Swept(job, types, s0, s, places, now), plan[i], places[i])
    {
      assert Placed(lib, job, s0, survey, s, plan[i], places[i]);
      PlacedIsDelivered(lib, job, types, s0, survey, s, plan[i], places[i]);
      assert places[i] in places;
    }
  }

  lemma SweptCounts(lib: Library, job: Job, types: set<string>, s0: StoreState, survey: Survey, plan: seq<Prepared>,
                    managed: map<string, Record>, counts: Counts)
    requires Sound(lib, s0) && NoDuplicates(s0, job.scope, types) && survey == SurveyOf(s0, job.scope, types)
    requires CountsCarry(job, survey, plan, managed, counts)
    ensures CountsAddUp(job, types, s0, plan, if job.deleteMissing then counts.(deleted := |managed|) else counts)
  {
    hide Sound, NoDuplicates, LiveByKey, PlanKeys;
    ManagedIsOwned(lib, job, types, s0);
    MirrorsSize(ManagedOf(survey.live, job.manager), s0, OwnedKeys(job, types, s0));
    hide Mirrors, ManagedOf, OwnedKeys;
  }

  /** A successful reconciliation delivers the desired set and nothing else. */
  lemma ReconcileDelivers(lib: Library, types: set<string>, job: Job, plan: seq<Prepared>, s0: StoreState, now: int,
                          ids: seq<string>)
    returns (places: seq<string>)
    requires Sound(lib, s0) && DistinctPlan(plan) && ForTypes(types, plan)
    requires ReconcileResult(lib, types, job, plan, s0, now, ids).Some?
    ensures var success := ReconcileResult(lib, types, job, plan, s0, now, ids).value;
      Reconciled(lib, job, types, s0, success.state, plan, places, now, success.counts)
  {
    hide Sound, Continues, ApplyAll, NoDuplicates, LiveByKey, Listable, CountsCarry, AllPlaced, OnlyAt, TombstonedKeys;
    var survey := SurveyOf(s0, job.scope, types);
    places := PlanIsCarriedOut(lib, job, types, s0, survey, now, ids, plan);
    var p := ApplyAll(lib, job, survey, now, Progress(s0, ManagedOf(survey.live, job.manager), Counts(0, 0, 0, 0), ids),
                      plan).value;
    SweptCounts(lib, job, types, s0, survey, plan, p.managed, p.counts);
    PlacesAreOwned(lib, job, types, s0, survey, p.state, plan, places);
    SweptIsWhatRemains(lib, job, types, s0, survey, plan, p, places, now);
    hide Swept, CountsAddUp, PlacesOwned, Delivered, OwnsExactly, OthersUntouched, TombstonesFor, ManagedOf, StoredKeys,
         Buried;
    SweptIsSound(lib, job, types, s0, p.state, places, now);
    SweptDelivers(lib, job, types, s0, survey, p.state, plan, places, now);
    SweptOwns(job, types, s0, p.state, places, now);
    SweptSparesOthers(job, types, s0, p.state, places, now);
    PlacesMatchPlan(lib, job, s0, survey, p.state, plan, places);
  }

  lemma PlacesMatchPlan(lib: Library, job: Job, s0: StoreState, survey: Survey, s: StoreState, plan: seq<Prepared>,
                        places: seq<string>)
    requires AllPlaced(lib, job, s0, survey, s, plan, places)
    ensures |places| == |plan| && Distinct(places)
  {
  }

  lemma SweptIsWhatRemains(lib: Library, job: Job, types: set<string>, s0: StoreState, survey: Survey,
                           plan: seq<Prepared>, p: Progress, places: seq<string>, now: int)
    requires Sound(lib, s0) && NoDuplicates(s0, job.scope, types) && survey == SurveyOf(s0, job.scope, types)
    requires Carries(lib, job, s0, survey, plan, p, places)
    ensures Swept(job, types, s0, p.state, places, now)
         == if job.deleteMissing then Buried(p.state, StoredKeys(p.managed), now) else p.state
  {
    hide Sound, Continues, NoDuplicates, LiveByKey, AllPlaced, OnlyAt, Buried;
    DoomedAreUnplaced(lib, job, types, s0, survey, p.state, plan, places);
  }
}
