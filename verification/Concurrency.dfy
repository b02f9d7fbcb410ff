/** Optimistic concurrency over the server's write paths and the reconciler together. */
module Concurrency {
  import opened Values
  import opened Records
  import opened Memory
  import opened StoreSafety
  import opened Reconciler
  import opened ReconcilePlan
  import opened ReconcileTheorems
  import opened ReconcileStability
  import opened Etag
  import opened ServerWrites

  /** The tag of this version is among the tags of the header, compared strongly or weakly. */
  predicate Names(weakTags: bool, tags: seq<EntityTag>, version: EntityTag) {
    exists t | t in tags :: t.text == version.text && (weakTags || !t.weak)
  }

  /** A write conditional on lists of tags passes its preconditions exactly when the current version
      is one of the If-Match tags and none of the If-None-Match ones. */
  lemma IfMatchGuardsWrites(weakTags: bool, ifMatch: string, tags: seq<EntityTag>, ifNoneMatch: string,
                            others: seq<EntityTag>, version: string, current: EntityTag)
    requires tags != [] && Spells(Trim(ifMatch), tags)
    requires if others == [] then ifNoneMatch == "" else Spells(Trim(ifNoneMatch), others)
    requires Spells(Trim(version), [current]) && !current.weak
    ensures Preconditions(weakTags, ifMatch, ifNoneMatch, version)
         == if Names(weakTags, tags, current) && forall t | t in others :: t.text != current.text then None
            else Some(StoreFailed(PreconditionFailed))
  {
    AcceptedHeadersSpellTheirTags(ifMatch, tags);
    AcceptedHeadersSpellTheirTags(version, [current]);
    ConditionsCompareTags(ifMatch, tags, version, current);
    if others != [] {
      ConditionsCompareTags(ifNoneMatch, others, version, current);
    }
    hide Spells;
    assert ifMatch != "" by {
      assert Parse("") == None;
    }
    hide Parse;
    assert current in tags <==> exists t | t in tags :: t.text == current.text && !t.weak by {
      assert EntityTag(current.text, false) == current;
    }
  }

  /** For every live record, whatever its version: If-Match with an asterisk passes, and If-None-Match
      with one refuses. */
  lemma StarGuardsWrites(lib: Library, weakTags: bool, s: StoreState, key: string, star: string)
    requires Sound(lib, s) && key in s.records && Trim(star) == "*"
    ensures var version := s.records[key].version;
      && Preconditions(weakTags, star, "", version) == None
      && Preconditions(weakTags, "", star, version) == Some(StoreFailed(PreconditionFailed))
      && Preconditions(weakTags, star, star, version) == Some(StoreFailed(PreconditionFailed))
  {
    assert SingleStrongTag(s.records[key].version).Some? by {
      var r := s.records[key];
      KeyOfRecord(lib, s, RecordKey(r.resourceType, r.id), r.resourceType, r.id);
    }
    StarMatchesAnything(star, s.records[key].version);
    assert star != "" by { assert Trim("") == ""; }
    hide Sound, Parse, Trim, SingleStrongTag;
  }

  /** The header is no list of tags and no asterisk, and it is there. */
  ghost predicate Malformed(header: string) {
    header != "" && Trim(header) != "*" && forall tags | tags != [] :: !Spells(Trim(header), tags)
  }

  /** The header is an asterisk, or lists a tag that is the version's, compared strongly or weakly. */
  ghost predicate Finds(weak: bool, header: string, version: EntityTag) {
    Trim(header) == "*" || exists tags | tags != [] && Spells(Trim(header), tags) :: Names(weak, tags, version)
  }

  /** A write or removal is refused in this order: for a malformed If-Match, for one without the version, for a
      malformed If-None-Match, and for one with it; and else passes. */
  lemma PreconditionOutcomes(weakTags: bool, ifMatch: string, ifNoneMatch: string, version: string, current: EntityTag)
    requires Spells(Trim(version), [current]) && !current.weak
    ensures Preconditions(weakTags, ifMatch, ifNoneMatch, version) ==
      if Malformed(ifMatch) then Some(BadRequest)
      else if ifMatch != "" && !Finds(weakTags, ifMatch, current) then Some(StoreFailed(PreconditionFailed))
      else if Malformed(ifNoneMatch) then Some(BadRequest)
      else if ifNoneMatch != "" && Finds(true, ifNoneMatch, current) then Some(StoreFailed(PreconditionFailed))
      else None
  {
    assert current == EntityTag(current.text, false);
    VersionsAreStrongTags(version, current.text);
    ReadsHeader(ifMatch, version, current);
    ReadsHeader(ifNoneMatch, version, current);
    hide Spells, Trim, SingleStrongTag, Parse, Malformed, Finds;
  }

  /** A version that is no strong tag cannot be compared weakly: an If-Match that is no list is still the client's
      error, and any other is the store's. */
  lemma UnreadableVersionsFail(ifMatch: string, ifNoneMatch: string, version: string)
    requires ifMatch != "" && forall text :: !Spells(Trim(version), [EntityTag(text, false)])
    ensures Preconditions(true, ifMatch, ifNoneMatch, version) ==
      Some(if Malformed(ifMatch) then BadRequest else StoreFailed(Invalid))
  {
    if SingleStrongTag(version).Some? {
      VersionsAreStrongTags(version, SingleStrongTag(version).value);
    }
    MalformedExactly(ifMatch);
    hide Spells, Trim, SingleStrongTag, Parse, Malformed;
  }

  lemma MalformedExactly(header: string)
    ensures header != "" ==> (Malformed(header) <==> Parse(header) == None)
  {
    assert Trim(header) == "*" <==> Parse(header) == Some(Star);
    forall tags: seq<EntityTag>
      ensures Parse(header) == Some(Listed(tags)) <==> tags != [] && Spells(Trim(header), tags)
    {
      AcceptedHeadersSpellTheirTags(header, tags);
    }
    hide Spells, Trim, SingleStrongTag, Parse;
    if header != "" && Parse(header).Some? && Parse(header).value.Listed? {
      assert Parse(header) == Some(Listed(Parse(header).value.tags));
    }
  }

  /** One header, read both ways. */
  lemma ReadsHeader(header: string, version: string, current: EntityTag)
    requires SingleStrongTag(version) == Some(current.text) && !current.weak
    ensures header != "" ==> (Malformed(header) <==> Parse(header) == None)
    ensures header != "" && Parse(header).Some? ==>
      var candidates := Parse(header).value;
      && (Finds(true, header, current) <==>
            candidates.Star? || exists t | t in candidates.tags :: t.text == current.text)
      && (Finds(false, header, current) <==> candidates.Star? || EntityTag(current.text, false) in candidates.tags)
  {
    StarMatchesAnything(header, version);
    forall tags: seq<EntityTag>
      ensures Parse(header) == Some(Listed(tags)) <==> tags != [] && Spells(Trim(header), tags)
    {
      AcceptedHeadersSpellTheirTags(header, tags);
    }
    hide Spells, Trim, SingleStrongTag, Parse;
    if header != "" && Parse(header).Some? {
      var candidates := Parse(header).value;
      if candidates.Listed? {
        assert Parse(header) == Some(Listed(candidates.tags));
        forall tags: seq<EntityTag> | tags != [] && Spells(Trim(header), tags)
          ensures tags == candidates.tags
        {
        }
        assert EntityTag(current.text, false) in candidates.tags <==> Names(false, candidates.tags, current) by {
          assert forall t: EntityTag | t.text == current.text && !t.weak :: t == EntityTag(current.text, false);
        }
      }
    }
  }

  /** A PUT or PATCH commits only against a version its preconditions admit, and then the record
      it leaves follows the one it saw; a refused write changes nothing. */
  lemma WritesAreGuarded(lib: Library, weakTags: bool, s: StoreState, q: WriteRequest)
    requires Sound(lib, s) && WriteReply(lib, weakTags, s, q).Done?
    ensures var (next, record) := WriteReply(lib, weakTags, s, q).value;
      var key := RecordKey(q.resourceType, q.id);
      && Sound(lib, next) && Continues(s, next)
      && key in s.records && s.records[key].scope == q.scope
      && Preconditions(weakTags, q.ifMatch, q.ifNoneMatch, s.records[key].version) == None
      && next == s.(records := s.records[key := record])
      && Follows(s.records[key], record)
  {
    hide ValidRecord, Parse, IndexConflict, Sound, Continues, Preconditions;
    var key := RecordKey(q.resourceType, q.id);
    var current := s.records[key];
    KeyOfRecord(lib, s, key, q.resourceType, q.id);
    var e := q.edit(lib.decode(current.data).value).value;
    ReplacementFollows(lib, current, e.externalId, e.document, e.indexes, q.now, q.credential);
    var replacement := ReplacementRecord(lib, current, e.externalId, e.document, e.indexes, q.now, q.credential).value;
    if replacement.changed {
      ReplaceKeepsSound(lib, s, replacement.record, current.version);
    } else {
      ContinuesItself(s);
      assert s.records == s.records[key := current];
    }
  }

  lemma KeyOfRecord(lib: Library, s: StoreState, key: string, resourceType: string, id: string)
    requires Sound(lib, s) && key == RecordKey(resourceType, id) && key in s.records
    ensures s.records[key].resourceType == resourceType && s.records[key].id == id
    ensures ValidRecord(lib, s.records[key])
  {
    hide ValidRecord, IdsUnique, IndexesUnique;
    ValidKeysAreInjective(lib, s.records[key], resourceType, id);
  }

  lemma ReplacementFollows(lib: Library, current: Record, externalId: string, document: Document,
                           indexes: seq<IndexKey>, now: int, credential: Option<string>)
    requires ReplacementRecord(lib, current, externalId, document, indexes, now, credential).Some?
    ensures var next := ReplacementRecord(lib, current, externalId, document, indexes, now, credential).value;
      Follows(current, next.record) && (!next.changed ==> next.record == current)
  {
    hide ValidRecord;
  }

  /** Versions are one quoted strong entity tag. */
  ghost predicate QuotedVersions(lib: Library) {
    forall x | lib.hash(x).Some? :: exists t :: WellFormedTag(t) && !t.weak && lib.hash(x) == Some(ShowTag(t))
  }

  /** No lost update: once a write has changed a record, a second write conditional on the version
      from before is refused. */
  lemma NoLostUpdate(lib: Library, weakTags: bool, s: StoreState, first: WriteRequest, second: WriteRequest)
    requires Sound(lib, s) && InjectiveVersions(lib) && QuotedVersions(lib)
    requires WriteReply(lib, weakTags, s, first).Done?
    requires second.scope == first.scope && second.resourceType == first.resourceType && second.id == first.id
    requires second.now != ZERO_TIME
    requires var key := RecordKey(first.resourceType, first.id);
      key in s.records && WriteReply(lib, weakTags, s, first).value.1 != s.records[key]
      && second.ifMatch == s.records[key].version && second.ifNoneMatch == ""
    ensures WriteReply(lib, weakTags, WriteReply(lib, weakTags, s, first).value.0, second)
         == Failed(StoreFailed(PreconditionFailed))
  {
    hide Sound, Continues, Preconditions, Parse;
    var key := RecordKey(first.resourceType, first.id);
    WritesAreGuarded(lib, weakTags, s, first);
    var (next, record) := WriteReply(lib, weakTags, s, first).value;
    var before := s.records[key];
    KeyOfRecord(lib, s, key, first.resourceType, first.id);
    KeyOfRecord(lib, next, key, first.resourceType, first.id);
    VersionTellsChange(lib, before, record);
    OldVersionIsRefused(lib, weakTags, before, record);
    hide ValidRecord, Preconditions, WriteReply, Follows;
    RefusedWrite(lib, weakTags, next, second, record);
  }

  lemma OldVersionIsRefused(lib: Library, weakTags: bool, before: Record, record: Record)
    requires ValidRecord(lib, before) && ValidRecord(lib, record) && QuotedVersions(lib)
    requires before.version != record.version
    ensures Preconditions(weakTags, before.version, "", record.version) == Some(StoreFailed(PreconditionFailed))
  {
    var was := VersionTag(lib, before);
    var current := VersionTag(lib, record);
    hide Parse, ValidRecord, Preconditions, ShowTag, WellFormedTag, Spells, QuotedVersions;
    ShownTagSpells(was);
    ShownTagSpells(current);
    IfMatchGuardsWrites(weakTags, before.version, [was], "", [], record.version, current);
    assert !Names(weakTags, [was], current) by {
      assert was == EntityTag(was.text, false) && current == EntityTag(current.text, false);
    }
  }

  lemma VersionTag(lib: Library, r: Record) returns (tag: EntityTag)
    requires ValidRecord(lib, r) && QuotedVersions(lib)
    ensures WellFormedTag(tag) && !tag.weak && r.version == ShowTag(tag)
  {
    assert VersionOf(lib, r) == Some(r.version);
    tag :| WellFormedTag(tag) && !tag.weak && r.version == ShowTag(tag);
  }

  lemma RefusedWrite(lib: Library, weakTags: bool, s: StoreState, q: WriteRequest, current: Record)
    requires GetResult(s, q.scope, q.resourceType, q.id) == Ok(current) && q.now != ZERO_TIME
    requires Preconditions(weakTags, q.ifMatch, q.ifNoneMatch, current.version) == Some(StoreFailed(PreconditionFailed))
    ensures WriteReply(lib, weakTags, s, q) == Failed(StoreFailed(PreconditionFailed))
  {
    hide Preconditions;
  }

  /** A DELETE commits only against an admitted version; it never fails inside the store once
      its preconditions hold, and it leaves the matching tombstone. */
  lemma RemovesAreGuarded(lib: Library, weakTags: bool, s: StoreState, q: RemoveRequest)
    requires Sound(lib, s)
    ensures var key := RecordKey(q.resourceType, q.id);
      RemoveReply(weakTags, s, q).Done? <==>
        && q.now != ZERO_TIME && key in s.records && s.records[key].scope == q.scope
        && Preconditions(weakTags, q.ifMatch, q.ifNoneMatch, s.records[key].version) == None
    ensures var key := RecordKey(q.resourceType, q.id);
      RemoveReply(weakTags, s, q).Done? ==>
        && RemoveReply(weakTags, s, q).value == Buried(s, {key}, q.now)
        && Sound(lib, RemoveReply(weakTags, s, q).value) && Continues(s, RemoveReply(weakTags, s, q).value)
  {
    hide Parse, Preconditions, Sound, Continues;
    var key := RecordKey(q.resourceType, q.id);
    if q.now != ZERO_TIME && key in s.records {
      KeyOfRecord(lib, s, key, q.resourceType, q.id);
      NothingBuried(s, q.now);
      assert {} + {key} == {key};
      hide ValidRecord, Buried;
      BuryOne(lib, s, {}, key, q.now);
    }
  }

  // ---------- every history ----------

  datatype ServerOp =
    | CreateOp(create: CreateRequest)
    | WriteOp(write: WriteRequest)
    | RemoveOp(remove: RemoveRequest)
    | ReconcileOp(job: Job, resources: seq<Desired>, now: int, ids: seq<string>)

  datatype World = World(lib: Library, registry: Registry, weakTags: bool)

  /** The state after one operation; a failed one changes nothing. */
  function ServerStep(w: World, s: StoreState, op: ServerOp): StoreState {
    match op
    case CreateOp(q) => (match CreateReply(w.lib, s, q) case Done((next, _)) => next case Failed(_) => s)
    case WriteOp(q) => (match WriteReply(w.lib, w.weakTags, s, q) case Done((next, _)) => next case Failed(_) => s)
    case RemoveOp(q) => (match RemoveReply(w.weakTags, s, q) case Done(next) => next case Failed(_) => s)
    case ReconcileOp(job, resources, now, ids) =>
      match PlanOf(w.registry, resources)
      case None => s
      case Some(plan) =>
        match ReconcileResult(w.lib, w.registry.types, job, plan, s, now, ids)
        case None => s
        case Some(success) => success.state
  }

  function ServerRun(w: World, s: StoreState, ops: seq<ServerOp>): StoreState {
    if ops == [] then s else ServerStep(w, ServerRun(w, s, ops[..|ops| - 1]), ops[|ops| - 1])
  }

  /** Every surviving record follows its former self. */
  ghost predicate AllFollow(s: StoreState, next: StoreState) {
    forall k | k in s.records && k in next.records :: Follows(s.records[k], next.records[k])
  }

  lemma CreateStep(lib: Library, s: StoreState, q: CreateRequest)
    requires Sound(lib, s) && CreateReply(lib, s, q).Done?
    ensures var next := CreateReply(lib, s, q).value.0; Sound(lib, next) && Continues(s, next) && AllFollow(s, next)
  {
    hide ValidRecord, Sound, Continues, IndexConflict, NewRecord;
    CreateKeepsSound(lib, s, CreateReply(lib, s, q).value.1);
  }

  lemma ReconcileStep(w: World, s: StoreState, job: Job, resources: seq<Desired>, now: int, ids: seq<string>)
    requires Sound(w.lib, s)
    ensures var next := ServerStep(w, s, ReconcileOp(job, resources, now, ids));
      Sound(w.lib, next) && Continues(s, next) && AllFollow(s, next)
  {
    hide Sound, Continues, ReconcileResult;
    ContinuesItself(s);
    if PlanOf(w.registry, resources).Some?
      && ReconcileResult(w.lib, w.registry.types, job, PlanOf(w.registry, resources).value, s, now, ids).Some? {
      PlansAreUsable(w.registry, resources);
      hide PlanOf, DistinctPlan, ForTypes;
      var plan := PlanOf(w.registry, resources).value;
      var places := ReconcileDelivers(w.lib, w.registry.types, job, plan, s, now, ids);
      var success := ReconcileResult(w.lib, w.registry.types, job, plan, s, now, ids).value;
      ReconciledFollows(w.lib, job, w.registry.types, s, success.state, plan, places, now, success.counts);
    }
  }

  lemma ReconciledFollows(lib: Library, job: Job, types: set<string>, s0: StoreState, s1: StoreState,
                          plan: seq<Prepared>, places: seq<string>, now: int, counts: Counts)
    requires Reconciled(lib, job, types, s0, s1, plan, places, now, counts)
    ensures AllFollow(s0, s1)
  {
    hide Sound, Continues, OwnsExactly, TombstonesFor, CountsAddUp, Holds;
    forall k | k in s0.records && k in s1.records
      ensures Follows(s0.records[k], s1.records[k])
    {
      if k in places {
        var i :| 0 <= i < |places| && places[i] == k;
        assert Delivered(lib, job, types, s0, s1, plan[i], k);
      }
    }
  }

  /** One operation of any kind keeps the store sound and ages every surviving record properly. */
  lemma StepFollows(w: World, s: StoreState, op: ServerOp)
    requires Sound(w.lib, s)
    ensures var next := ServerStep(w, s, op); Sound(w.lib, next) && Continues(s, next) && AllFollow(s, next)
  {
    hide Sound, Continues, CreateReply, WriteReply, RemoveReply, ReconcileResult, PlanOf;
    ContinuesItself(s);
    match op
    case CreateOp(q) =>
      if CreateReply(w.lib, s, q).Done? { CreateStep(w.lib, s, q); }
    case WriteOp(q) =>
      if WriteReply(w.lib, w.weakTags, s, q).Done? { WritesAreGuarded(w.lib, w.weakTags, s, q); }
    case RemoveOp(q) =>
      if RemoveReply(w.weakTags, s, q).Done? { RemovesAreGuarded(w.lib, w.weakTags, s, q); }
    case ReconcileOp(job, resources, now, ids) =>
      ReconcileStep(w, s, job, resources, now, ids);
  }

  /** Along a record's life identity, creation time and manager are constant, and its last
      modification time grows strictly whenever anything in it changes. */
  predicate Ages(a: Record, b: Record) {
    SameIdentity(a, b) && (a == b || b.lastModified > a.lastModified)
  }

  ghost predicate AllAge(s: StoreState, later: StoreState) {
    forall k | k in s.records && k in later.records :: Ages(s.records[k], later.records[k])
  }

  lemma AgesCompose(lib: Library, a: StoreState, b: StoreState, c: StoreState)
    requires Sound(lib, c) && Continues(a, b) && Continues(b, c)
    requires AllAge(a, b) && AllFollow(b, c)
    ensures AllAge(a, c)
  {
    forall k | k in a.records && k in c.records
      ensures Ages(a.records[k], c.records[k])
    {
      LiveKeyIsNotTombstoned(lib, c, k);
    }
  }

  lemma {:induction false} RecordsAge(w: World, s: StoreState, ops: seq<ServerOp>)
    requires Sound(w.lib, s)
    ensures var later := ServerRun(w, s, ops); Sound(w.lib, later) && Continues(s, later) && AllAge(s, later)
  {
    hide Sound, Continues, ServerStep, AllFollow;
    if ops == [] {
      ContinuesItself(s);
    } else {
      var before, last := ops[..|ops| - 1], ops[|ops| - 1];
      RecordsAge(w, s, before);
      var middle, later := ServerRun(w, s, before), ServerRun(w, s, ops);
      StepFollows(w, middle, last);
      ContinuesIsTransitive(w.lib, s, middle, later);
      AgesCompose(w.lib, s, middle, later);
    }
  }
}
