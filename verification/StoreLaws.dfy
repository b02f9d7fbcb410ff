/** What each store call does, told from the records and tombstones alone: every outcome with its exact
    condition, and how long a deleted record keeps its names. */
module StoreLaws {
  import opened Text
  import opened Records
  import opened Memory
  import opened StoreSafety

  // ---------- outcomes ----------

  ghost predicate IdIsLive(s: StoreState, id: string) {
    exists k | k in s.records :: s.records[k].id == id
  }

  /** Some tombstone has the ID, or the scope, type and external ID. */
  ghost predicate IsReserved(s: StoreState, r: Record) {
    exists k | k in s.tombstones ::
      var t := s.tombstones[k];
      t.id == r.id
      || (r.externalId != "" && t.externalId == r.externalId && t.scope == r.scope && t.resourceType == r.resourceType)
  }

  /** Two equally named indexes that can stand beside each other. */
  predicate Agree(lib: Library, x: IndexKey, y: IndexKey) {
    lib.fold(x.name) == lib.fold(y.name) ==>
      && x.unique == y.unique && x.caseExact == y.caseExact
      && (x.unique ==> if x.caseExact then x.value != y.value else lib.fold(x.value) != lib.fold(y.value))
  }

  /** All other records of the scope and type have indexes that agree with these. */
  ghost predicate FitsIn(lib: Library, s: StoreState, r: Record, key: string) {
    forall k | k in s.records && k != key && s.records[k].scope == r.scope
      && s.records[k].resourceType == r.resourceType ::
      forall x, y | x in r.indexes && y in s.records[k].indexes :: Agree(lib, x, y)
  }

  lemma ConflictsExactly(lib: Library, s: StoreState, r: Record, key: string)
    ensures IndexConflict(lib, s, r, key) <==> !FitsIn(lib, s, r, key)
  {
    forall k | k in s.records
      ensures RecordsClash(lib, r, s.records[k]) <==>
        !(forall x, y | x in r.indexes && y in s.records[k].indexes :: Agree(lib, x, y))
    {
      ClashesExactly(lib, r, s.records[k]);
    }
    hide RecordsClash, Agree;
  }

  lemma ClashesExactly(lib: Library, r: Record, other: Record)
    ensures RecordsClash(lib, r, other) <==> !(forall x, y | x in r.indexes && y in other.indexes :: Agree(lib, x, y))
  {
    forall x, y
      ensures IndexesClash(lib, x, y) <==> !Agree(lib, x, y)
    {
    }
    hide IndexesClash, Agree;
    if RecordsClash(lib, r, other) {
      var i, j :| 0 <= i < |r.indexes| && 0 <= j < |other.indexes| && IndexesClash(lib, r.indexes[i], other.indexes[j]);
      assert r.indexes[i] in r.indexes && other.indexes[j] in other.indexes;
    }
    if x, y :| x in r.indexes && y in other.indexes && !Agree(lib, x, y) {
      var i :| 0 <= i < |r.indexes| && r.indexes[i] == x;
      var j :| 0 <= j < |other.indexes| && other.indexes[j] == y;
      assert IndexesClash(lib, r.indexes[i], other.indexes[j]);
    }
  }

  /** A create is refused for an invalid record, a live ID, a reserved name or an index, in this order, and
      else adds the record. */
  lemma CreateOutcomes(lib: Library, s: StoreState, r: Record)
    requires Sound(lib, s)
    ensures CreateResult(lib, s, r) ==
      if !ValidRecord(lib, r) then Err(Invalid)
      else if IdIsLive(s, r.id) then Err(Conflict)
      else if IsReserved(s, r) then Err(Tombstoned)
      else if !FitsIn(lib, s, r, "") then Err(Conflict)
      else Ok(StoreState(s.records[r.resourceType + "\0" + r.id := r], s.tombstones))
  {
    ConflictsExactly(lib, s, r, "");
    hide ValidRecord, IndexConflict, IdsUnique, IndexesUnique, FitsIn;
    if ValidRecord(lib, r) {
      forall k | k in s.records && k == RecordKey(r.resourceType, r.id)
        ensures s.records[k].id == r.id
      {
        ValidKeysAreInjective(lib, r, s.records[k].resourceType, s.records[k].id);
      }
    }
  }

  /** A record of this type and ID is live in the scope. */
  ghost predicate IsLive(s: StoreState, scope: string, resourceType: string, id: string, x: Record) {
    x in s.records.Values && x.scope == scope && x.resourceType == resourceType && x.id == id
  }

  /** A replacement is refused for an invalid record, a missing one, another version, another creation time or
      manager, or an index, in this order, and else takes the old record's place. */
  lemma ReplaceOutcomes(lib: Library, s: StoreState, r: Record, expected: string, x: Record)
    requires Sound(lib, s)
    ensures !ValidRecord(lib, r) ==> ReplaceResult(lib, s, r, expected) == Err(Invalid)
    ensures (ValidRecord(lib, r) && forall y | y in s.records.Values ::
               !IsLive(s, r.scope, r.resourceType, r.id, y)) ==>
            ReplaceResult(lib, s, r, expected) == Err(NotFound)
    ensures ValidRecord(lib, r) && IsLive(s, r.scope, r.resourceType, r.id, x) ==>
      ReplaceResult(lib, s, r, expected) ==
        if expected == "" || expected != x.version then Err(PreconditionFailed)
        else if r.created != x.created || r.manager != x.manager then Err(Invalid)
        else if !FitsIn(lib, s, r, r.resourceType + "\0" + r.id) then Err(Conflict)
        else Ok(StoreState(s.records[r.resourceType + "\0" + r.id := r], s.tombstones))
  {
    ConflictsExactly(lib, s, r, RecordKey(r.resourceType, r.id));
    hide ValidRecord, IndexConflict, FitsIn, Sound;
    LookupsFindTheRecord(lib, s, r.scope, r.resourceType, r.id, x);
    if r.resourceType + "\0" + r.id in s.records {
      LookupsFindTheRecord(lib, s, r.scope, r.resourceType, r.id, s.records[r.resourceType + "\0" + r.id]);
    }
  }

  /** The tombstone is that of this record, with a time of deletion. */
  predicate Buries(t: Tombstone, x: Record) {
    && t.scope == x.scope && t.resourceType == x.resourceType && t.id == x.id && t.externalId == x.externalId
    && t.manager == x.manager && t.version == x.version && t.deletedAt != ZERO_TIME
  }

  /** A delete is refused for a missing record, another version or a tombstone that is not the record's, in this
      order, and else leaves that tombstone in the record's place. */
  lemma DeleteOutcomes(lib: Library, s: StoreState, scope: string, resourceType: string, id: string, expected: string,
                       t: Tombstone, x: Record)
    requires Sound(lib, s)
    ensures (forall y | y in s.records.Values :: !IsLive(s, scope, resourceType, id, y)) ==>
      DeleteResult(s, scope, resourceType, id, expected, t) == Err(NotFound)
    ensures IsLive(s, scope, resourceType, id, x) ==>
      DeleteResult(s, scope, resourceType, id, expected, t) ==
        if expected == "" || expected != x.version then Err(PreconditionFailed)
        else if !Buries(t, x) then Err(Invalid)
        else var key := resourceType + "\0" + id; Ok(StoreState(s.records - {key}, s.tombstones[key := t]))
  {
    hide Sound;
    LookupsFindTheRecord(lib, s, scope, resourceType, id, x);
    var key := RecordKey(resourceType, id);
    if key in s.records {
      LookupsFindTheRecord(lib, s, scope, resourceType, id, s.records[key]);
      LiveKeyIsNotTombstoned(lib, s, key);
    }
  }

  /** A listing selects by external ID, or by the first index of the name, with or without case. */
  lemma SelectsExactly(lib: Library, s: StoreState, q: Query, k: string)
    ensures k in SelectedKeys(lib, s, q) <==>
      && k in s.records && s.records[k].scope == q.scope && s.records[k].resourceType == q.resourceType
      && (|| q.attribute == ""
          || (lib.fold(q.attribute) == lib.fold("externalId") && s.records[k].externalId == q.value)
          || (lib.fold(q.attribute) != lib.fold("externalId")
              && exists i | 0 <= i < |s.records[k].indexes| :: Decides(lib, s.records[k].indexes, q, i)))
  {
    if k in s.records {
      FirstDecides(lib, s.records[k].indexes, q);
    }
  }

  /** A listing needs a scope, a type name, an attribute name if it names one, and a positive limit. */
  lemma QueriesAreValid(q: Query)
    ensures ValidQuery(q) <==>
      q.scope != "" && ValidName(q.resourceType) && q.limit > 0
        && (q.attribute == "" || ValidAttributeName(q.attribute))
  {
  }

  /** The index at i is the first of the queried name, and has the queried value. */
  predicate Decides(lib: Library, indexes: seq<IndexKey>, q: Query, i: int)
    requires 0 <= i < |indexes|
  {
    && lib.fold(indexes[i].name) == lib.fold(q.attribute)
    && (forall j | 0 <= j < i :: lib.fold(indexes[j].name) != lib.fold(q.attribute))
    && if indexes[i].caseExact then indexes[i].value == q.value else lib.fold(indexes[i].value) == lib.fold(q.value)
  }

  lemma {:induction false} FirstDecides(lib: Library, indexes: seq<IndexKey>, q: Query)
    ensures FirstIndexMatches(lib, indexes, q.attribute, q.value) <==>
      exists i | 0 <= i < |indexes| :: Decides(lib, indexes, q, i)
  {
    if indexes != [] {
      var rest := indexes[1..];
      FirstDecides(lib, rest, q);
      if lib.fold(indexes[0].name) == lib.fold(q.attribute) {
        assert FirstIndexMatches(lib, indexes, q.attribute, q.value) ==> Decides(lib, indexes, q, 0);
      } else {
        forall i | 0 <= i < |rest|
          ensures Decides(lib, rest, q, i) <==> Decides(lib, indexes, q, i + 1)
        {
          assert forall j | 0 <= j < i :: rest[j] == indexes[j + 1];
          assert forall j | 1 <= j < i + 1 :: indexes[j] == rest[j - 1];
        }
        if i :| 0 <= i < |indexes| && Decides(lib, indexes, q, i) {
          assert i > 0 && Decides(lib, rest, q, i - 1);
        }
      }
    }
  }

  // ---------- names of deleted records ----------

  /** A tombstone reserves its ID, and its external ID in its scope and type, for ever. */
  lemma TombstonesReserve(lib: Library, s: StoreState, script: seq<Command>, k: string, r: Record)
    requires Sound(lib, s) && k in s.tombstones
    requires var t := s.tombstones[k];
      t.id == r.id
      || (t.externalId != "" && t.externalId == r.externalId && t.scope == r.scope && t.resourceType == r.resourceType)
    ensures CreateResult(lib, Steps(lib, s, script), r).Err?
  {
    hide Sound, Steps, ValidRecord, FitsIn, CreateResult;
    RunsAreSound(lib, s, script);
    CreateOutcomes(lib, Steps(lib, s, script), r);
  }

  /** Once a record with an external ID is deleted, no later create with its scope, type and external ID
      is accepted. */
  lemma DeletedExternalIdsStayReserved(lib: Library, s: StoreState, scope: string, resourceType: string, id: string,
                                       expected: string, t: Tombstone, x: Record, script: seq<Command>, r: Record)
    requires Sound(lib, s) && IsLive(s, scope, resourceType, id, x) && x.externalId != ""
    requires DeleteResult(s, scope, resourceType, id, expected, t).Ok?
    requires r.scope == scope && r.resourceType == resourceType && r.externalId == x.externalId
    ensures CreateResult(lib, Steps(lib, DeleteResult(s, scope, resourceType, id, expected, t).value, script), r).Err?
  {
    DeleteOutcomes(lib, s, scope, resourceType, id, expected, t, x);
    DeleteKeepsSound(lib, s, scope, resourceType, id, expected, t);
    hide DeleteResult, Sound, Steps, CreateResult;
    TombstonesReserve(lib, DeleteResult(s, scope, resourceType, id, expected, t).value, script,
                      resourceType + "\0" + id, r);
  }

  /** But a replacement never looks at the tombstones: it may take over the external ID of a deleted record. */
  lemma ReplacementsIgnoreTombstones(lib: Library, s: StoreState, tombstones: map<string, Tombstone>, r: Record,
                                     expected: string)
    ensures var others := StoreState(s.records, tombstones);
      match ReplaceResult(lib, s, r, expected)
      case Ok(next) => ReplaceResult(lib, others, r, expected) == Ok(StoreState(next.records, tombstones))
      case Err(error) => ReplaceResult(lib, others, r, expected) == Err(error)
  {
    hide ValidRecord, RecordsClash;
    assert IndexConflict(lib, s, r, RecordKey(r.resourceType, r.id)) <==>
      IndexConflict(lib, StoreState(s.records, tombstones), r, RecordKey(r.resourceType, r.id));
  }
}
