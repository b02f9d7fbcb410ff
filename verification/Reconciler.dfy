/** Manager-scoped desired-state reconciliation: the plan, its meaning on a store state, and
    the transaction body that carries it out. */
module Reconciler {
  import opened Values
  import opened Text
  import opened Records
  import opened Memory
  import opened Order

  const MAXIMUM_RECONCILE_RESOURCES := 10000

  datatype Desired = Desired(resourceType: string, externalId: string, data: Document)

  /** A desired resource after normalization. */
  datatype Prepared = Prepared(resourceType: string, externalId: string, document: Document, indexes: seq<IndexKey>)

  datatype Job = Job(scope: string, manager: string, deleteMissing: bool)

  datatype Counts = Counts(created: nat, updated: nat, deleted: nat, untouched: nat)

  /** The registered resource types and resource normalization. */
  datatype Registry = Registry(
    types: set<string>,
    normalize: (string, Document) -> Option<(Document, seq<IndexKey>)>)

  // ---------- the plan ----------

  predicate Identified(registry: Registry, d: Desired) {
    d.resourceType in registry.types && d.externalId != "" && ValidString(d.externalId, MAXIMUM_STRING_BYTES)
  }

  function DesiredKey(d: Desired): string { RecordKey(d.resourceType, d.externalId) }

  function Normalized(registry: Registry, d: Desired): Option<Prepared> {
    match registry.normalize(d.resourceType, d.data["externalId" := Value.Text(d.externalId)])
    case None => None
    case Some((document, indexes)) => Some(Prepared(d.resourceType, d.externalId, document, indexes))
  }

  predicate Plannable(registry: Registry, resources: seq<Desired>) {
    && (forall d | d in resources :: Identified(registry, d) && Normalized(registry, d).Some?)
    && forall i, j | 0 <= i < j < |resources| :: DesiredKey(resources[i]) != DesiredKey(resources[j])
  }

  function DesiredKeys(resources: seq<Desired>): set<string> {
    set i | 0 <= i < |resources| :: DesiredKey(resources[i])
  }

  lemma PlannableOneMore(registry: Registry, resources: seq<Desired>, d: Desired)
    ensures Plannable(registry, resources + [d]) <==>
      && Plannable(registry, resources)
      && Identified(registry, d) && Normalized(registry, d).Some?
      && DesiredKey(d) !in DesiredKeys(resources)
    ensures DesiredKeys(resources + [d]) == DesiredKeys(resources) + {DesiredKey(d)}
  {
    hide Identified, Normalized, DesiredKey;
    var all := resources + [d];
    assert forall i | 0 <= i < |resources| :: all[i] == resources[i];
    assert all[|resources|] == d;
    assert forall x :: x in all <==> x in resources || x == d;
    if Plannable(registry, all) {
      forall i, j | 0 <= i < j < |resources|
        ensures DesiredKey(resources[i]) != DesiredKey(resources[j])
      {
        assert DesiredKey(all[i]) != DesiredKey(all[j]);
      }
    }
  }

  lemma PlannablePrefix(registry: Registry, resources: seq<Desired>, n: nat)
    requires n <= |resources| && Plannable(registry, resources)
    ensures Plannable(registry, resources[..n])
  {
    assert forall d | d in resources[..n] :: d in resources;
  }

  predicate ByIdentity(a: Prepared, b: Prepared) {
    if a.resourceType == b.resourceType then CompareText(a.externalId, b.externalId) < 0
    else CompareText(a.resourceType, b.resourceType) < 0
  }

  function NormalizedAll(registry: Registry, resources: seq<Desired>): (r: seq<Prepared>)
    requires forall d | d in resources :: Normalized(registry, d).Some?
    ensures |r| == |resources|
    ensures forall i | 0 <= i < |r| :: Normalized(registry, resources[i]) == Some(r[i])
  {
    if resources == [] then []
    else
      var last := Normalized(registry, resources[|resources| - 1]).value;
      NormalizedAll(registry, resources[..|resources| - 1]) + [last]
  }

  /** The canonical plan. None when the request is rejected before the store is touched. */
  function PlanOf(registry: Registry, resources: seq<Desired>): Option<seq<Prepared>> {
    if |resources| <= MAXIMUM_RECONCILE_RESOURCES && Plannable(registry, resources)
    then Some(Sort(ByIdentity, NormalizedAll(registry, resources)))
    else None
  }

  method MakePlan(registry: Registry, resources: seq<Desired>) returns (plan: Option<seq<Prepared>>)
    ensures plan == PlanOf(registry, resources)
  {
    if |resources| > MAXIMUM_RECONCILE_RESOURCES {
      return None;
    }
    var prepared: seq<Prepared> := [];
    var seen: set<string> := {};
    for n := 0 to |resources|
      invariant Plannable(registry, resources[..n])
      invariant seen == DesiredKeys(resources[..n])
      invariant prepared == NormalizedAll(registry, resources[..n])
    {
      hide Plannable, DesiredKeys, Identified, Normalized, DesiredKey;
      var desired := resources[n];
      assert resources[..n + 1] == resources[..n] + [desired];
      PlannableOneMore(registry, resources[..n], desired);
      if Plannable(registry, resources) {
        PlannablePrefix(registry, resources, n + 1);
      }
      var one := Normalized(registry, desired);
      if !Identified(registry, desired) || DesiredKey(desired) in seen || one.None? {
        return None;
      }
      seen := seen + {DesiredKey(desired)};
      NormalizedOneMore(registry, resources[..n], desired);
      prepared := prepared + [one.value];
    }
    assert resources[..|resources|] == resources;
    return Some(Sort(ByIdentity, prepared));
  }

  lemma NormalizedOneMore(registry: Registry, resources: seq<Desired>, d: Desired)
    requires Plannable(registry, resources) && Normalized(registry, d).Some?
    ensures forall x | x in resources + [d] :: Normalized(registry, x).Some?
    ensures NormalizedAll(registry, resources + [d])
      == NormalizedAll(registry, resources) + [Normalized(registry, d).value]
  {
    assert (resources + [d])[..|resources|] == resources;
  }

  // ---------- meaning on a state ----------

  function PreparedKey(d: Prepared): string { RecordKey(d.resourceType, d.externalId) }

  function ExternalKey(r: Record): string { RecordKey(r.resourceType, r.externalId) }

  predicate InReach(r: Record, scope: string, types: set<string>) {
    r.scope == scope && r.resourceType in types && r.externalId != ""
  }

  function LiveKeys(s: StoreState, scope: string, types: set<string>): set<string> {
    set k | k in s.records && InReach(s.records[k], scope, types)
  }

  predicate NoDuplicates(s: StoreState, scope: string, types: set<string>) {
    forall j, k | j in LiveKeys(s, scope, types) && k in LiveKeys(s, scope, types) && j != k ::
      ExternalKey(s.records[j]) != ExternalKey(s.records[k])
  }

  function LiveByKey(s: StoreState, scope: string, types: set<string>): map<string, Record>
    requires NoDuplicates(s, scope, types)
  {
    map k | k in LiveKeys(s, scope, types) :: ExternalKey(s.records[k]) := s.records[k]
  }

  function ManagedOf(live: map<string, Record>, manager: string): map<string, Record> {
    map x | x in live && live[x].manager == manager :: live[x]
  }

  function TombstonedKeys(s: StoreState, scope: string, types: set<string>): set<string> {
    set k | k in s.tombstones && s.tombstones[k].scope == scope && s.tombstones[k].resourceType in types
            && s.tombstones[k].externalId != "" :: RecordKey(s.tombstones[k].resourceType, s.tombstones[k].externalId)
  }

  predicate Listable(lib: Library, s: StoreState, scope: string, types: set<string>) {
    forall t | t in types ::
      |SelectedKeys(lib, s, Query(scope, t, "", "", MAXIMUM_RECONCILE_RESOURCES))| <= MAXIMUM_RECONCILE_RESOURCES
  }

  datatype Progress = Progress(state: StoreState, managed: map<string, Record>, counts: Counts, ids: seq<string>)

  /** What the transaction knows before it changes anything. */
  datatype Survey = Survey(live: map<string, Record>, tombstoned: set<string>)

  function ApplyOne(lib: Library, job: Job, survey: Survey, now: int, p: Progress, d: Prepared): Option<Progress> {
    var key := PreparedKey(d);
    if key in survey.tombstoned then None
    else if key in survey.live && survey.live[key].manager != job.manager then None
    else if key !in survey.live then
      if p.ids == [] then None
      else
        match NewRecord(lib, job.scope, job.manager, d.resourceType, p.ids[0], d.externalId, d.document, d.indexes, now,
                        "")
        case None => None
        case Some(record) =>
          match CreateResult(lib, p.state, record)
          case Err(_) => None
          case Ok(next) => Some(p.(state := next, ids := p.ids[1..],
                                   counts := p.counts.(created := p.counts.created + 1)))
    else
      match ReplacementRecord(lib, survey.live[key], d.externalId, d.document, d.indexes, now, None)
      case None => None
      case Some(Replacement(record, changed)) =>
        if !changed then
          Some(p.(managed := p.managed - {key}, counts := p.counts.(untouched := p.counts.untouched + 1)))
        else
          match ReplaceResult(lib, p.state, record, survey.live[key].version)
          case Err(_) => None
          case Ok(next) =>
            Some(p.(state := next, managed := p.managed - {key}, counts := p.counts.(updated := p.counts.updated + 1)))
  }

  function ApplyAll(lib: Library, job: Job, survey: Survey, now: int, p: Progress,
                    plan: seq<Prepared>): Option<Progress> {
    if plan == [] then Some(p)
    else
      match ApplyAll(lib, job, survey, now, p, plan[..|plan| - 1])
      case None => None
      case Some(q) => ApplyOne(lib, job, survey, now, q, plan[|plan| - 1])
  }

  function TombstoneFor(r: Record, now: int): Tombstone {
    Tombstone(r.scope, r.resourceType, r.id, r.externalId, r.manager, r.version, now)
  }

  function StoredKey(r: Record): string { RecordKey(r.resourceType, r.id) }

  /** The records under the given keys deleted, each leaving its tombstone. */
  function Buried(s: StoreState, keys: set<string>, now: int): StoreState {
    StoreState(s.records - keys, s.tombstones + map k | k in keys && k in s.records :: TombstoneFor(s.records[k], now))
  }

  function StoredKeys(managed: map<string, Record>): set<string> {
    set x | x in managed :: StoredKey(managed[x])
  }

  datatype Success = Success(state: StoreState, counts: Counts)

  function ReconcileResult(lib: Library, types: set<string>, job: Job, plan: seq<Prepared>, s: StoreState,
                                 now: int, ids: seq<string>): Option<Success>
  {
    if now == ZERO_TIME || !Listable(lib, s, job.scope, types) || !NoDuplicates(s, job.scope, types) then None
    else
      var live := LiveByKey(s, job.scope, types);
      var survey := Survey(live, TombstonedKeys(s, job.scope, types));
      match ApplyAll(lib, job, survey, now, Progress(s, ManagedOf(live, job.manager), Counts(0, 0, 0, 0), ids), plan)
      case None => None
      case Some(p) =>
        if !job.deleteMissing then Some(Success(p.state, p.counts))
        else Some(Success(Buried(p.state, StoredKeys(p.managed), now), p.counts.(deleted := |p.managed|)))
  }
}
