/** Which requests a reconciliation plans, and what it plans for them. */
module ReconcileLaws {
  import opened Values
  import opened Text
  import opened Records
  import opened Memory
  import opened StoreSafety
  import opened Order
  import opened Reconciler
  import opened ReconcilePlan
  import opened ReconcileTheorems
  import opened RecordLaws

  /** A desired resource that can be planned: of a registered type, with an external ID, and accepted with that ID
      written into it. */
  predicate CanBePlanned(registry: Registry, d: Desired) {
    && d.resourceType in registry.types && d.externalId != "" && ValidString(d.externalId, 65536)
    && registry.normalize(d.resourceType, d.data["externalId" := Value.Text(d.externalId)]).Some?
  }

  /** There is a plan exactly for at most ten thousand resources that can be planned, no two of one type and external
      ID. It holds for each its type, external ID and what acceptance made of it, by type and external ID. */
  lemma PlansExactly(registry: Registry, resources: seq<Desired>)
    requires forall t | t in registry.types :: ValidName(t)
    ensures PlanOf(registry, resources).Some? <==>
      && |resources| <= 10000 && (forall d | d in resources :: CanBePlanned(registry, d))
      && forall i, j | 0 <= i < j < |resources| ::
           resources[i].resourceType != resources[j].resourceType || resources[i].externalId != resources[j].externalId
    ensures PlanOf(registry, resources).Some? ==>
      var plan := PlanOf(registry, resources).value;
      && |plan| == |resources|
      && (forall d | d in resources :: CanBePlanned(registry, d) && Planned(registry, d) in plan)
      && forall p | p in plan :: exists d | d in resources :: CanBePlanned(registry, d) && Planned(registry, d) == p
  {
    hide ValidName, ValidString, ByIdentity, Sort, NormalizedAll, CanBePlanned, Normalized, Identified, DesiredKey;
    PlannableExactly(registry, resources);
    if PlanOf(registry, resources).Some? {
      PlanHolds(registry, resources, PlanOf(registry, resources).value);
    }
  }

  lemma PlannableExactly(registry: Registry, resources: seq<Desired>)
    requires forall t | t in registry.types :: ValidName(t)
    ensures Plannable(registry, resources) <==>
      && (forall d | d in resources :: CanBePlanned(registry, d))
      && forall i, j | 0 <= i < j < |resources| ::
           resources[i].resourceType != resources[j].resourceType || resources[i].externalId != resources[j].externalId
  {
    forall d
      ensures CanBePlanned(registry, d) <==> Identified(registry, d) && Normalized(registry, d).Some?
    {
    }
    hide ValidName, ValidString, CanBePlanned, Identified, Normalized, DesiredKey;
    if forall d | d in resources :: CanBePlanned(registry, d) {
      forall i, j | 0 <= i < j < |resources|
        ensures DesiredKey(resources[i]) == DesiredKey(resources[j]) <==>
          resources[i].resourceType == resources[j].resourceType && resources[i].externalId == resources[j].externalId
      {
        assert resources[i] in resources && resources[j] in resources;
        PlainKeys(registry, resources[i], resources[j]);
      }
    }
  }

  lemma PlanHolds(registry: Registry, resources: seq<Desired>, plan: seq<Prepared>)
    requires PlanOf(registry, resources) == Some(plan) && forall d | d in resources :: CanBePlanned(registry, d)
    ensures |plan| == |resources|
    ensures forall d | d in resources :: Planned(registry, d) in plan
    ensures forall p | p in plan :: exists d | d in resources :: Planned(registry, d) == p
  {
    hide ValidString, ByIdentity, Sort, Identified, DesiredKey;
    forall d | d in resources
      ensures Normalized(registry, d) == Some(Planned(registry, d))
    {
    }
    hide Normalized, CanBePlanned, Planned;
    var all := NormalizedAll(registry, resources);
    SameElements(all, plan);
    forall d | d in resources
      ensures Planned(registry, d) in all
    {
      var i :| 0 <= i < |resources| && resources[i] == d;
      assert all[i] == Planned(registry, d);
    }
    forall p | p in all
      ensures exists d | d in resources :: Planned(registry, d) == p
    {
      var i :| 0 <= i < |all| && all[i] == p;
      assert resources[i] in resources;
    }
  }

  function Planned(registry: Registry, d: Desired): Prepared
    requires CanBePlanned(registry, d)
  {
    var (document, indexes) :=
      registry.normalize(d.resourceType, d.data["externalId" := Value.Text(d.externalId)]).value;
    Prepared(d.resourceType, d.externalId, document, indexes)
  }

  lemma PlainKeys(registry: Registry, a: Desired, b: Desired)
    requires CanBePlanned(registry, a) && CanBePlanned(registry, b) && forall t | t in registry.types :: ValidName(t)
    ensures DesiredKey(a) == DesiredKey(b) <==> a.resourceType == b.resourceType && a.externalId == b.externalId
  {
    ValidNameHasNoNul(a.resourceType);
    ValidTextHasNoNul(a.externalId, 65536);
    hide ValidName, ValidString;
    if DesiredKey(a) == DesiredKey(b) {
      KeysAreInjective(a.resourceType, a.externalId, b.resourceType, b.externalId);
    }
  }

  // ---------- what the plan leaves in a record ----------

  /** A record made for a desired resource: with its data, external ID and indexes, created now, or replacing the one
      from before, whose creation and credential it keeps, and modified now or just after the last time. */
  ghost predicate MadeFor(lib: Library, job: Job, now: int, before: Option<Record>, r: Record, d: Prepared) {
    && r.resourceType == d.resourceType && r.externalId == d.externalId && r.indexes == d.indexes
    && lib.encode(d.document) == Some(r.data)
    && match before
       case None =>
         && r.scope == job.scope && r.manager == job.manager && r.created == now && r.lastModified == now
         && r.credentialVersion == ""
       case Some(former) =>
         && r.scope == former.scope && r.manager == former.manager && r.id == former.id && r.created == former.created
         && r.credentialVersion == former.credentialVersion
         && r.lastModified == if now <= former.lastModified then former.lastModified + 1 else now
  }

  /** Every record is the one from before, or made for a desired resource. */
  ghost predicate Accounted(lib: Library, job: Job, now: int, live: map<string, Record>, s0: StoreState, s: StoreState,
                            plan: seq<Prepared>) {
    forall k | k in s.records ::
      || (k in s0.records && s.records[k] == s0.records[k])
      || exists d | d in plan ::
           MadeFor(lib, job, now, if PreparedKey(d) in live then Some(live[PreparedKey(d)]) else None, s.records[k], d)
  }

  lemma {:induction false} RecordsAreAccounted(lib: Library, job: Job, survey: Survey, now: int, s0: StoreState,
                                               start: Progress, plan: seq<Prepared>)
    requires start.state == s0 && ApplyAll(lib, job, survey, now, start, plan).Some?
    requires forall x | x in survey.live :: ExternalKey(survey.live[x]) == x
    requires forall d | d in plan && PreparedKey(d) in survey.live ::
      survey.live[PreparedKey(d)].resourceType == d.resourceType
    ensures Accounted(lib, job, now, survey.live, s0, ApplyAll(lib, job, survey, now, start, plan).value.state, plan)
  {
    hide ValidRecord, CreateResult, ReplaceResult, NewRecord, ReplacementRecord, MadeFor, ApplyOne;
    if plan != [] {
      var init, d := plan[..|plan| - 1], plan[|plan| - 1];
      assert plan == init + [d];
      RecordsAreAccounted(lib, job, survey, now, s0, start, init);
      OneMoreAccounted(lib, job, survey, now, s0, ApplyAll(lib, job, survey, now, start, init).value, init, d);
    }
  }

  lemma OneMoreAccounted(lib: Library, job: Job, survey: Survey, now: int, s0: StoreState, p: Progress,
                         plan: seq<Prepared>, d: Prepared)
    requires Accounted(lib, job, now, survey.live, s0, p.state, plan) && ApplyOne(lib, job, survey, now, p, d).Some?
    requires PreparedKey(d) in survey.live ==> survey.live[PreparedKey(d)].resourceType == d.resourceType
    ensures Accounted(lib, job, now, survey.live, s0, ApplyOne(lib, job, survey, now, p, d).value.state, plan + [d])
  {
    var key, next := PreparedKey(d), ApplyOne(lib, job, survey, now, p, d).value.state;
    var former := if key in survey.live then Some(survey.live[key]) else None;
    assert forall x :: x in plan + [d] <==> x in plan || x == d;
    var made := MadeByOne(lib, job, survey, now, p, d);
    hide ApplyOne, MadeFor;
    forall k | k in next.records
      ensures (k in s0.records && next.records[k] == s0.records[k])
        || exists x | x in plan + [d] ::
             MadeFor(lib, job, now, if PreparedKey(x) in survey.live then Some(survey.live[PreparedKey(x)]) else None,
                     next.records[k], x)
    {
      if k in p.state.records && next.records[k] == p.state.records[k] {
      } else {
        assert MadeFor(lib, job, now, former, next.records[k], d);
      }
    }
  }

  /** One turn changes nothing, or puts one record made for its resource. */
  lemma MadeByOne(lib: Library, job: Job, survey: Survey, now: int, p: Progress, d: Prepared)
    returns (made: Option<Record>)
    requires ApplyOne(lib, job, survey, now, p, d).Some?
    requires PreparedKey(d) in survey.live ==> survey.live[PreparedKey(d)].resourceType == d.resourceType
    ensures var next, key := ApplyOne(lib, job, survey, now, p, d).value.state, PreparedKey(d);
      match made
      case None => next == p.state
      case Some(r) =>
        && next.records == p.state.records[StoredKey(r) := r]
        && MadeFor(lib, job, now, if key in survey.live then Some(survey.live[key]) else None, r, d)
  {
    hide ValidRecord, IndexConflict, NewRecord, ReplacementRecord;
    var key := PreparedKey(d);
    if key in survey.live {
      ReplacementsAre(lib, survey.live[key], d.externalId, d.document, d.indexes, now, None);
      var next := ReplacementRecord(lib, survey.live[key], d.externalId, d.document, d.indexes, now, None).value;
      made := if next.changed then Some(next.record) else None;
    } else {
      NewRecordsAre(lib, job.scope, job.manager, d.resourceType, p.ids[0], d.externalId, d.document, d.indexes, now,
                    "");
      made := NewRecord(lib, job.scope, job.manager, d.resourceType, p.ids[0], d.externalId, d.document, d.indexes, now,
                        "");
    }
  }

  /** After a reconciliation every record is the one from before, or made for a desired resource. */
  lemma ReconciledAreAccounted(lib: Library, types: set<string>, job: Job, plan: seq<Prepared>, s0: StoreState,
                               now: int, ids: seq<string>)
    requires Sound(lib, s0) && ReconcileResult(lib, types, job, plan, s0, now, ids).Some?
    ensures Accounted(lib, job, now, LiveByKey(s0, job.scope, types), s0,
                      ReconcileResult(lib, types, job, plan, s0, now, ids).value.state, plan)
  {
    hide Sound, Listable, ApplyAll, TombstonedKeys, ManagedOf, MadeFor, LiveByKey, NoDuplicates;
    var survey := SurveyOf(s0, job.scope, types);
    var start := Progress(s0, ManagedOf(survey.live, job.manager), Counts(0, 0, 0, 0), ids);
    forall x | x in survey.live
      ensures ExternalKey(survey.live[x]) == x
    {
      LiveIsByExternalKey(s0, job.scope, types, x);
    }
    forall d | d in plan && PreparedKey(d) in survey.live
      ensures survey.live[PreparedKey(d)].resourceType == d.resourceType
    {
      var _ := LiveRecord(lib, s0, job.scope, types, d);
    }
    RecordsAreAccounted(lib, job, survey, now, s0, start, plan);
  }
}
