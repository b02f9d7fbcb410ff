/** Which stores the server can read back: over whole runs whose requests are prepared as the server
    prepares them, every User and Group record renders exactly when every stored input was stable. */
module Readability {
  import opened Values
  import opened Records
  import opened Memory
  import opened StoreSafety
  import opened Order
  import opened Reconciler
  import opened ReconcilePlan
  import opened ReconcileTheorems
  import opened ReconcileStability
  import opened ReconcileRun
  import opened ServerWrites
  import opened Concurrency
  import Json
  import NormalForm
  import NormalFormTheorems
  import ReadBack
  import StoredResources

  // ---------- a server that prepares what it stores ----------

  /** other prepares the resources of custom types. */
  datatype Site = Site(
    h: NormalForm.Host, lib: Library, rules: Json.Rules, types: set<string>, weakTags: bool,
    meta: Record -> Value, other: (string, Document) -> Option<Edited>)

  ghost predicate Dependable(site: Site) {
    NormalFormTheorems.Sensible(site.h) && StoredResources.Codec(site.lib, site.rules)
  }

  function Standard(resourceType: string): Option<NormalForm.Definition> {
    match resourceType
    case "User" => Some(NormalForm.UserDefinition())
    case "Group" => Some(NormalForm.GroupDefinition())
    case _ => None
  }

  function Normal(site: Site, resourceType: string, d: Document): Option<Edited> {
    match Standard(resourceType)
    case None => site.other(resourceType, d)
    case Some(def) =>
      match StoredResources.PrepareResource(site.h, site.lib, def, d)
      case None => None
      case Some(p) => Some(Edited(p.document, p.indexes, p.externalId))
  }

  function RegistryOf(site: Site): Registry {
    Registry(site.types, (t, d) =>
      match Normal(site, t, d) case None => None case Some(e) => Some((e.document, e.indexes)))
  }

  function WorldOf(site: Site): World { World(site.lib, RegistryOf(site), site.weakTags) }

  /** A request before preparation. make is the document a PUT body or a PATCH leaves for preparation,
      mutability enforced; None is a client error. */
  datatype Asked =
    | Post(scope: string, manager: string, resourceType: string, id: string, input: Document, secret: string, now: int)
    | Change(scope: string, resourceType: string, id: string, ifMatch: string, ifNoneMatch: string,
             make: Document -> Option<Document>, credential: Option<string>, now: int)
    | Delete(remove: RemoveRequest)
    | Sync(job: Job, resources: seq<Desired>, now: int, ids: seq<string>)

  function OpOf(site: Site, a: Asked): ServerOp {
    match a
    case Post(scope, manager, resourceType, id, input, secret, now) =>
      CreateOp(CreateRequest(scope, manager, resourceType, id, Normal(site, resourceType, input), secret, now))
    case Change(scope, resourceType, id, ifMatch, ifNoneMatch, make, credential, now) =>
      WriteOp(WriteRequest(scope, resourceType, id, ifMatch, ifNoneMatch, EditOf(site, resourceType, make), credential,
                           now))
    case Delete(q) => RemoveOp(q)
    case Sync(job, resources, now, ids) => ReconcileOp(job, resources, now, ids)
  }

  function EditOf(site: Site, resourceType: string, make: Document -> Option<Document>): Document -> Option<Edited> {
    current => match make(current) case None => None case Some(d) => Normal(site, resourceType, d)
  }

  function Step(site: Site, s: StoreState, a: Asked): StoreState { ServerStep(WorldOf(site), s, OpOf(site, a)) }

  function Run(site: Site, s: StoreState, history: seq<Asked>): StoreState {
    if history == [] then s else Step(site, Run(site, s, history[..|history| - 1]), history[|history| - 1])
  }

  // ---------- readable records and stable inputs ----------

  predicate Readable(site: Site, r: Record) {
    match Standard(r.resourceType)
    case None => true
    case Some(def) => StoredResources.Render(site.h, site.lib, def, site.meta, r).Some?
  }

  predicate AllReadable(site: Site, s: StoreState) { forall k | k in s.records :: Readable(site, s.records[k]) }

  /** An accepted input of a standard type is stable. */
  predicate StableInput(site: Site, resourceType: string, d: Document) {
    match Standard(resourceType)
    case None => true
    case Some(def) =>
      match StoredResources.Clone(site.lib, d) case None => true case Some(copy) => ReadBack.Stable(site.h, def, copy)
  }

  function InputOf(d: Desired): Document { d.data["externalId" := Value.Text(d.externalId)] }

  /** What this request stores, if it stores anything, was stable when it came in. */
  predicate StoresStable(site: Site, s: StoreState, a: Asked) {
    match (a, OpOf(site, a))
    case (Post(_, _, resourceType, _, input, _, _), CreateOp(q)) =>
      CreateReply(site.lib, s, q).Done? ==> StableInput(site, resourceType, input)
    case (Change(_, resourceType, id, _, _, make, _, _), WriteOp(q)) =>
      WriteReply(site.lib, site.weakTags, s, q).Done? ==>
        StableInput(site, resourceType, make(site.lib.decode(s.records[RecordKey(resourceType, id)].data).value).value)
    case (Sync(job, resources, now, ids), _) =>
      SyncResult(site, s, job, resources, now, ids).Some? ==>
        forall d | d in resources :: StableInput(site, d.resourceType, InputOf(d))
    case _ => true
  }

  function SyncResult(site: Site, s: StoreState, job: Job, resources: seq<Desired>, now: int,
                      ids: seq<string>): Option<Success> {
    match PlanOf(RegistryOf(site), resources)
    case None => None
    case Some(plan) => ReconcileResult(site.lib, site.types, job, plan, s, now, ids)
  }

  // ---------- one record ----------

  lemma StandardIsStandard(resourceType: string)
    requires Standard(resourceType).Some?
    ensures var def := Standard(resourceType).value;
      NormalFormTheorems.StandardDefinition(def) && def.name == resourceType
  {
    hide NormalForm.UserAttributes, NormalForm.GroupAttributes, NormalForm.EnterpriseAttributes;
  }

  /** The record holds this prepared input. */
  predicate Contains(site: Site, r: Record, resourceType: string, d: Document) {
    && ValidRecord(site.lib, r) && r.resourceType == resourceType
    && Normal(site, resourceType, d).Some?
    && site.lib.encode(Normal(site, resourceType, d).value.document) == Some(r.data)
  }

  /** A record holding a prepared input is readable only if the input was stable, and if it was and
      the indexes are the prepared ones, then it is. */
  lemma HeldInput(site: Site, r: Record, resourceType: string, d: Document)
    requires Dependable(site) && Contains(site, r, resourceType, d)
    ensures Readable(site, r) ==> StableInput(site, resourceType, d)
    ensures StableInput(site, resourceType, d) && r.indexes == Normal(site, resourceType, d).value.indexes
      ==> Readable(site, r)
  {
    hide NormalFormTheorems.StandardDefinition, ReadBack.Stable, Standard, ValidRecord, NormalFormTheorems.Sensible,
         StoredResources.Codec, StoredResources.Spelled, NormalForm.Prepare;
    if Standard(resourceType).Some? {
      var def := Standard(resourceType).value;
      StandardIsStandard(resourceType);
      var p := StoredResources.PrepareResource(site.h, site.lib, def, d).value;
      var copy := StoredResources.Clone(site.lib, d).value;
      StoredResources.CloneIsSpelled(site.lib, site.rules, d);
      StoredResources.PreparedIsSpelled(site.h, site.rules, def, copy);
      StoredResources.ValidDataDecodes(site.lib, r);
      StoredResources.WrittenComesBack(site.lib, site.rules, p.document, r.data);
      ReadBack.PreparingTwice(site.h, def, copy);
      StoredResources.StandardIsIndexed(site.h, def, copy);
      ExternalIdIsRead(site.h, site.lib, def, copy, r);
    }
  }

  lemma ExternalIdIsRead(h: NormalForm.Host, lib: Library, def: NormalForm.Definition, d: Document, r: Record)
    requires ValidRecord(lib, r) && NormalForm.Prepare(h, def, d).Some?
    requires lib.decode(r.data) == Some(NormalForm.Prepare(h, def, d).value.document)
    ensures NormalForm.Prepare(h, def, d).value.externalId == r.externalId
  {
    hide NormalForm.SchemaSet, NormalForm.Normalized, NormalForm.Checked, ValidIndexes, OptionalString,
         NormalForm.ValidValues, NormalForm.ValidExtensions;
  }

  lemma NewRecordContains(site: Site, scope: string, manager: string, resourceType: string, id: string,
                          externalId: string, d: Document, now: int, secret: string)
    requires Normal(site, resourceType, d).Some?
    requires var e := Normal(site, resourceType, d).value;
      NewRecord(site.lib, scope, manager, resourceType, id, externalId, e.document, e.indexes, now, secret).Some?
    ensures var e := Normal(site, resourceType, d).value;
      var r := NewRecord(site.lib, scope, manager, resourceType, id, externalId, e.document, e.indexes, now,
                         secret).value;
      Contains(site, r, resourceType, d) && r.indexes == e.indexes
  {
    hide ValidRecord, Normal;
  }

  lemma ReplacementContains(site: Site, current: Record, externalId: string, d: Document, now: int,
                            credential: Option<string>)
    requires Normal(site, current.resourceType, d).Some? && ValidRecord(site.lib, current)
    requires var e := Normal(site, current.resourceType, d).value;
      ReplacementRecord(site.lib, current, externalId, e.document, e.indexes, now, credential).Some?
    ensures var e := Normal(site, current.resourceType, d).value;
      var next := ReplacementRecord(site.lib, current, externalId, e.document, e.indexes, now, credential).value;
      Contains(site, next.record, current.resourceType, d)
      && if next.changed then next.record.indexes == e.indexes else next.record == current
  {
    hide ValidRecord, Normal;
  }

  // ---------- one request ----------

  lemma PostReadable(site: Site, s: StoreState, a: Asked)
    requires Dependable(site) && a.Post? && AllReadable(site, s) && Sound(site.lib, s)
    ensures AllReadable(site, Step(site, s, a)) <==> StoresStable(site, s, a)
  {
    hide Dependable, StableInput, Contains, Normal, Readable, NewRecord, ValidRecord, IndexConflict, Sound;
    var q := OpOf(site, a).create;
    if CreateReply(site.lib, s, q).Done? {
      var (next, r) := CreateReply(site.lib, s, q).value;
      var key := RecordKey(r.resourceType, r.id);
      NewRecordContains(site, q.scope, q.manager, q.resourceType, q.id, q.edited.value.externalId, a.input, q.now,
                        q.credential);
      HeldInput(site, r, a.resourceType, a.input);
      OnlyOneIsNew(site, s, next, key);
    }
  }

  lemma OnlyOneIsNew(site: Site, s: StoreState, next: StoreState, key: string)
    requires AllReadable(site, s) && key in next.records && next.records == s.records[key := next.records[key]]
    ensures AllReadable(site, next) <==> Readable(site, next.records[key])
  {
    hide Readable;
  }

  lemma ChangeReadable(site: Site, s: StoreState, a: Asked)
    requires Dependable(site) && a.Change? && AllReadable(site, s) && Sound(site.lib, s)
    ensures AllReadable(site, Step(site, s, a)) <==> StoresStable(site, s, a)
  {
    hide Dependable, StableInput, Contains, Normal, Readable, ReplacementRecord, ValidRecord, IndexConflict, Sound,
         Preconditions, Continues;
    var q := OpOf(site, a).write;
    if WriteReply(site.lib, site.weakTags, s, q).Done? {
      var key := RecordKey(q.resourceType, q.id);
      WritesAreGuarded(site.lib, site.weakTags, s, q);
      KeyOfRecord(site.lib, s, key, q.resourceType, q.id);
      var current := s.records[key];
      var d := a.make(site.lib.decode(current.data).value).value;
      var e := Normal(site, q.resourceType, d).value;
      ReplacementContains(site, current, e.externalId, d, q.now, q.credential);
      var (next, r) := WriteReply(site.lib, site.weakTags, s, q).value;
      HeldInput(site, r, q.resourceType, d);
      OnlyOneIsNew(site, s, next, key);
    }
  }

  lemma DeleteReadable(site: Site, s: StoreState, a: Asked)
    requires a.Delete? && AllReadable(site, s) && Sound(site.lib, s)
    ensures AllReadable(site, Step(site, s, a)) && StoresStable(site, s, a)
  {
    hide Readable, Preconditions, Sound, Continues, Buried, Standard, Normal, RegistryOf, EditOf, CreateReply,
         WriteReply, ReconcileResult, PlanOf, StableInput;
    var q := OpOf(site, a).remove;
    RemovesAreGuarded(site.lib, site.weakTags, s, q);
    if RemoveReply(site.weakTags, s, q).Done? {
      BuriedReadable(site, s, {RecordKey(q.resourceType, q.id)}, q.now);
    }
  }

  lemma BuriedReadable(site: Site, s: StoreState, keys: set<string>, now: int)
    requires AllReadable(site, s)
    ensures AllReadable(site, Buried(s, keys, now))
  {
    hide Readable;
  }

  // ---------- one reconciliation ----------

  /** Every element of the plan is some desired resource, prepared. */
  ghost predicate Planned(site: Site, plan: seq<Prepared>, resources: seq<Desired>) {
    forall p | p in plan :: exists d | d in resources :: Normalized(RegistryOf(site), d) == Some(p)
  }

  lemma NormalizedIsNormal(site: Site, d: Desired)
    ensures match Normal(site, d.resourceType, InputOf(d))
      case None => Normalized(RegistryOf(site), d).None?
      case Some(e) =>
        Normalized(RegistryOf(site), d) == Some(Prepared(d.resourceType, d.externalId, e.document, e.indexes))
  {
    hide Normal;
  }

  lemma PlanOfIsPlanned(site: Site, resources: seq<Desired>)
    requires PlanOf(RegistryOf(site), resources).Some?
    ensures Planned(site, PlanOf(RegistryOf(site), resources).value, resources)
    ensures forall d | d in resources ::
      Normalized(RegistryOf(site), d).Some?
        && Normalized(RegistryOf(site), d).value in PlanOf(RegistryOf(site), resources).value
  {
    hide Normalized, NormalizedAll, RegistryOf, ByIdentity, Sort, Plannable;
    var registry := RegistryOf(site);
    PlannableNormalizes(registry, resources);
    var all := NormalizedAll(registry, resources);
    var plan := PlanOf(registry, resources).value;
    SameElements(all, plan);
    hide PlanOf;
    forall p | p in plan
      ensures exists d | d in resources :: Normalized(registry, d) == Some(p)
    {
      var i :| 0 <= i < |all| && all[i] == p;
      assert resources[i] in resources;
    }
    forall d | d in resources
      ensures Normalized(registry, d).Some? && Normalized(registry, d).value in plan
    {
      var i :| 0 <= i < |resources| && resources[i] == d;
      assert all[i] in all;
    }
  }

  lemma PlannableNormalizes(registry: Registry, resources: seq<Desired>)
    requires Plannable(registry, resources)
    ensures forall d | d in resources :: Normalized(registry, d).Some?
  {
    hide Normalized, Identified, DesiredKey;
  }

  ghost predicate FromStable(site: Site, x: Prepared) {
    exists d :: Normalized(RegistryOf(site), d) == Some(x) && StableInput(site, d.resourceType, InputOf(d))
  }

  lemma CreatedReadable(site: Site, job: Job, survey: Survey, now: int, p: Progress, x: Prepared)
    requires Dependable(site) && AllReadable(site, p.state) && FromStable(site, x)
    requires PreparedKey(x) !in survey.live && ApplyOne(site.lib, job, survey, now, p, x).Some?
    ensures AllReadable(site, ApplyOne(site.lib, job, survey, now, p, x).value.state)
  {
    hide Dependable, StableInput, Contains, Normal, Readable, NewRecord, ValidRecord, IndexConflict, RegistryOf,
         Normalized;
    var d :| Normalized(RegistryOf(site), d) == Some(x) && StableInput(site, d.resourceType, InputOf(d));
    NormalizedIsNormal(site, d);
    NewRecordContains(site, job.scope, job.manager, x.resourceType, p.ids[0], x.externalId, InputOf(d), now, "");
    var r := NewRecord(site.lib, job.scope, job.manager, x.resourceType, p.ids[0], x.externalId, x.document, x.indexes,
                       now, "").value;
    HeldInput(site, r, x.resourceType, InputOf(d));
    OnlyOneIsNew(site, p.state, ApplyOne(site.lib, job, survey, now, p, x).value.state,
                 RecordKey(r.resourceType, r.id));
  }

  lemma ReplacedReadable(site: Site, job: Job, survey: Survey, now: int, p: Progress, x: Prepared)
    requires Dependable(site) && AllReadable(site, p.state) && FromStable(site, x)
    requires PreparedKey(x) in survey.live && ApplyOne(site.lib, job, survey, now, p, x).Some?
    requires var current := survey.live[PreparedKey(x)];
      current.resourceType == x.resourceType && ValidRecord(site.lib, current)
    ensures AllReadable(site, ApplyOne(site.lib, job, survey, now, p, x).value.state)
  {
    hide Dependable, StableInput, Contains, Normal, Readable, ReplacementRecord, ValidRecord, IndexConflict, RegistryOf,
         Normalized;
    var current := survey.live[PreparedKey(x)];
    var d :| Normalized(RegistryOf(site), d) == Some(x) && StableInput(site, d.resourceType, InputOf(d));
    NormalizedIsNormal(site, d);
    ReplacementContains(site, current, x.externalId, InputOf(d), now, None);
    var next := ReplacementRecord(site.lib, current, x.externalId, x.document, x.indexes, now, None).value;
    HeldInput(site, next.record, x.resourceType, InputOf(d));
    if next.changed {
      OnlyOneIsNew(site, p.state, ApplyOne(site.lib, job, survey, now, p, x).value.state,
                   RecordKey(next.record.resourceType, next.record.id));
    }
  }

  lemma {:induction false} AppliedReadable(site: Site, job: Job, s0: StoreState, survey: Survey, now: int, p: Progress,
                                           plan: seq<Prepared>)
    requires Dependable(site) && AllReadable(site, p.state) && (forall x | x in plan :: FromStable(site, x))
    requires Sound(site.lib, s0) && Surveys(survey, s0, job.scope, site.types)
    requires ApplyAll(site.lib, job, survey, now, p, plan).Some?
    ensures AllReadable(site, ApplyAll(site.lib, job, survey, now, p, plan).value.state)
  {
    hide Dependable, FromStable, AllReadable, ApplyOne, Sound, NoDuplicates, LiveByKey, TombstonedKeys, ValidRecord;
    if plan != [] {
      var front, x := plan[..|plan| - 1], plan[|plan| - 1];
      AppliedReadable(site, job, s0, survey, now, p, front);
      var q := ApplyAll(site.lib, job, survey, now, p, front).value;
      if PreparedKey(x) in survey.live {
        var k := LiveRecord(site.lib, s0, job.scope, site.types, x);
        ReplacedReadable(site, job, survey, now, q, x);
      } else {
        CreatedReadable(site, job, survey, now, q, x);
      }
    }
  }

  /** Stable desired resources leave every record readable. */
  lemma SyncKeepsReadable(site: Site, s: StoreState, job: Job, resources: seq<Desired>, now: int, ids: seq<string>)
    requires Dependable(site) && AllReadable(site, s) && Sound(site.lib, s)
    requires SyncResult(site, s, job, resources, now, ids).Some?
    requires forall d | d in resources :: StableInput(site, d.resourceType, InputOf(d))
    ensures AllReadable(site, SyncResult(site, s, job, resources, now, ids).value.state)
  {
    hide Dependable, StableInput, Normalized, Sound, NoDuplicates, LiveByKey, ApplyAll, Listable, AllReadable, PlanOf,
         RegistryOf, TombstonedKeys, ManagedOf, StoredKeys, Buried;
    PlanOfIsPlanned(site, resources);
    var plan := PlanOf(RegistryOf(site), resources).value;
    forall x | x in plan
      ensures FromStable(site, x)
    {
    }
    hide Planned, FromStable;
    var live := LiveByKey(s, job.scope, site.types);
    var survey := Survey(live, TombstonedKeys(s, job.scope, site.types));
    var start := Progress(s, ManagedOf(live, job.manager), Counts(0, 0, 0, 0), ids);
    AppliedReadable(site, job, s, survey, now, start, plan);
    var p := ApplyAll(site.lib, job, survey, now, start, plan).value;
    BuriedReadable(site, p.state, StoredKeys(p.managed), now);
  }

  /** And an unstable one leaves a record that cannot be read. */
  lemma SyncNeedsStable(site: Site, s: StoreState, job: Job, resources: seq<Desired>, now: int, ids: seq<string>,
                        d: Desired)
    requires Dependable(site) && Sound(site.lib, s)
    requires SyncResult(site, s, job, resources, now, ids).Some? && d in resources
    requires AllReadable(site, SyncResult(site, s, job, resources, now, ids).value.state)
    ensures StableInput(site, d.resourceType, InputOf(d))
  {
    hide Dependable, StableInput, Normalized, Sound, ReconcileResult, PlanOf, RegistryOf, DistinctPlan, ForTypes,
         Normal, ValidRecord, Readable, Continues, OwnsExactly, OthersUntouched, TombstonesFor, CountsAddUp;
    PlansAreUsable(RegistryOf(site), resources);
    PlanOfIsPlanned(site, resources);
    NormalizedIsNormal(site, d);
    var plan := PlanOf(RegistryOf(site), resources).value;
    var success := ReconcileResult(site.lib, site.types, job, plan, s, now, ids).value;
    RegistryHasTypes(site);
    var places := ReconcileDelivers(site.lib, site.types, job, plan, s, now, ids);
    var x := Normalized(RegistryOf(site), d).value;
    var i :| 0 <= i < |plan| && plan[i] == x;
    assert Delivered(site.lib, job, site.types, s, success.state, plan[i], places[i]);
    var r := success.state.records[places[i]];
    RecordsAreFiled(site.lib, success.state, places[i]);
    HeldInput(site, r, d.resourceType, InputOf(d));
  }

  lemma RegistryHasTypes(site: Site)
    ensures RegistryOf(site).types == site.types
  {
  }

  lemma SyncStep(site: Site, s: StoreState, a: Asked)
    requires a.Sync?
    ensures var result := SyncResult(site, s, a.job, a.resources, a.now, a.ids);
      && Step(site, s, a) == (if result.Some? then result.value.state else s)
      && (StoresStable(site, s, a) <==>
            (result.Some? ==> forall d | d in a.resources :: StableInput(site, d.resourceType, InputOf(d))))
  {
    hide ReconcileResult, PlanOf, StableInput, Standard, Normal, RegistryOf, EditOf, CreateReply, WriteReply,
         RemoveReply;
    RegistryHasTypes(site);
  }

  lemma SyncReadable(site: Site, s: StoreState, a: Asked)
    requires Dependable(site) && a.Sync? && AllReadable(site, s) && Sound(site.lib, s)
    ensures AllReadable(site, Step(site, s, a)) <==> StoresStable(site, s, a)
  {
    hide Dependable, AllReadable, Sound, SyncResult, StableInput, Step, StoresStable, InputOf;
    SyncStep(site, s, a);
    if SyncResult(site, s, a.job, a.resources, a.now, a.ids).Some? {
      if AllReadable(site, Step(site, s, a)) {
        forall d | d in a.resources
          ensures StableInput(site, d.resourceType, InputOf(d))
        {
          SyncNeedsStable(site, s, a.job, a.resources, a.now, a.ids, d);
        }
      }
      if StoresStable(site, s, a) {
        SyncKeepsReadable(site, s, a.job, a.resources, a.now, a.ids);
      }
    }
  }

  // ---------- every run ----------

  /** From a readable store, one request leaves everything readable exactly when what it stores was stable. */
  lemma StepReadable(site: Site, s: StoreState, a: Asked)
    requires Dependable(site) && AllReadable(site, s) && Sound(site.lib, s)
    ensures AllReadable(site, Step(site, s, a)) <==> StoresStable(site, s, a)
    ensures Sound(site.lib, Step(site, s, a))
  {
    hide AllReadable, StoresStable, Sound, ServerStep, OpOf, Dependable, Continues, AllFollow;
    StepFollows(WorldOf(site), s, OpOf(site, a));
    match a
    case Post(_, _, _, _, _, _, _) => PostReadable(site, s, a);
    case Change(_, _, _, _, _, _, _, _) => ChangeReadable(site, s, a);
    case Delete(_) => DeleteReadable(site, s, a);
    case Sync(_, _, _, _) => SyncReadable(site, s, a);
  }

  /** Every request of the history stored only what was stable. */
  predicate AllStoreStable(site: Site, s: StoreState, history: seq<Asked>) {
    forall n | 0 <= n < |history| :: StoresStable(site, Run(site, s, history[..n]), history[n])
  }

  /** Every store the history passes through is readable. */
  predicate StaysReadable(site: Site, s: StoreState, history: seq<Asked>) {
    forall n | 0 <= n <= |history| :: AllReadable(site, Run(site, s, history[..n]))
  }

  lemma OneRequestMore(site: Site, s: StoreState, before: seq<Asked>, last: Asked)
    ensures var history := before + [last];
      && (AllStoreStable(site, s, history)
        <==> AllStoreStable(site, s, before) && StoresStable(site, Run(site, s, before), last))
      && (StaysReadable(site, s, history)
        <==> StaysReadable(site, s, before) && AllReadable(site, Run(site, s, history)))
  {
    hide AllReadable, StoresStable, Run;
    var history := before + [last];
    assert history[..|history|] == history && history[..|before|] == before && history[|before|] == last;
    assert forall n | 0 <= n <= |before| :: history[..n] == before[..n];
    assert forall n | 0 <= n < |before| :: history[n] == before[n];
    if AllStoreStable(site, s, history) {
      forall n | 0 <= n < |before|
        ensures StoresStable(site, Run(site, s, before[..n]), before[n])
      {
        assert StoresStable(site, Run(site, s, history[..n]), history[n]);
      }
    }
    if StaysReadable(site, s, history) {
      forall n | 0 <= n <= |before|
        ensures AllReadable(site, Run(site, s, before[..n]))
      {
        assert AllReadable(site, Run(site, s, history[..n]));
      }
    }
  }

  /** Every User and Group record of every store that a history passes through renders, exactly when
      every input the history stored was stable. */
  lemma {:induction false} StoresStayReadable(site: Site, s: StoreState, history: seq<Asked>)
    requires Dependable(site) && AllReadable(site, s) && Sound(site.lib, s)
    ensures StaysReadable(site, s, history) <==> AllStoreStable(site, s, history)
    ensures StaysReadable(site, s, history) ==> AllReadable(site, Run(site, s, history))
    ensures Sound(site.lib, Run(site, s, history))
  {
    hide AllReadable, StoresStable, Sound, Step, Dependable, AllStoreStable;
    if history != [] {
      var before, last := history[..|history| - 1], history[|history| - 1];
      assert before + [last] == history;
      StoresStayReadable(site, s, before);
      OneRequestMore(site, s, before, last);
      hide StaysReadable;
      RunIsSound(site, s, history);
      if AllReadable(site, Run(site, s, before)) {
        StepReadable(site, Run(site, s, before), last);
      }
    } else {
      assert history[..0] == history;
      assert AllStoreStable(site, s, history) by {
        NothingStored(site, s);
      }
    }
  }

  lemma NothingStored(site: Site, s: StoreState)
    ensures AllStoreStable(site, s, [])
  {
    hide StoresStable, Run;
  }

  lemma {:induction false} RunIsSound(site: Site, s: StoreState, history: seq<Asked>)
    requires Sound(site.lib, s)
    ensures Sound(site.lib, Run(site, s, history))
  {
    hide Sound, ServerStep, OpOf;
    if history != [] {
      RunIsSound(site, s, history[..|history| - 1]);
      StepFollows(WorldOf(site), Run(site, s, history[..|history| - 1]), OpOf(site, history[|history| - 1]));
    }
  }
}
