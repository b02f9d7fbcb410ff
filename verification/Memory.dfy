/** The reference store: what each transaction call does, the class that does it in place,
    and atomic transactions over a private copy. */
module Memory {
  import opened Values
  import opened Text
  import opened Records
  import opened Order

  datatype StoreState = StoreState(records: map<string, Record>, tombstones: map<string, Tombstone>)

  datatype StoreError = NotFound | Conflict | PreconditionFailed | Tombstoned | TooMany | Invalid

  datatype Result<+T> = Ok(value: T) | Err(error: StoreError)

  datatype Query = Query(scope: string, resourceType: string, attribute: string, value: string, limit: int)

  const EMPTY := StoreState(map[], map[])

  function RecordKey(resourceType: string, id: string): string {
    resourceType + "\0" + id
  }

  // ---------- meaning of each call ----------

  function GetResult(s: StoreState, scope: string, resourceType: string, id: string): Result<Record> {
    var key := RecordKey(resourceType, id);
    if key in s.records && s.records[key].scope == scope then Ok(s.records[key]) else Err(NotFound)
  }

  predicate IndexMatches(lib: Library, index: IndexKey, value: string) {
    if index.caseExact then index.value == value else lib.fold(index.value) == lib.fold(value)
  }

  /** The first index with the queried name decides. */
  predicate FirstIndexMatches(lib: Library, indexes: seq<IndexKey>, attribute: string, value: string) {
    indexes != [] &&
    if lib.fold(indexes[0].name) == lib.fold(attribute) then IndexMatches(lib, indexes[0], value)
    else FirstIndexMatches(lib, indexes[1..], attribute, value)
  }

  predicate RecordMatches(lib: Library, r: Record, attribute: string, value: string) {
    if lib.fold(attribute) == lib.fold("externalId") then r.externalId == value
    else FirstIndexMatches(lib, r.indexes, attribute, value)
  }

  predicate Selected(lib: Library, r: Record, q: Query) {
    && r.scope == q.scope && r.resourceType == q.resourceType
    && (q.attribute != "" ==> RecordMatches(lib, r, q.attribute, q.value))
  }

  predicate ValidQuery(q: Query) {
    && q.scope != "" && ValidName(q.resourceType)
    && (q.attribute != "" ==> ValidAttributeName(q.attribute))
    && q.limit >= 1
  }

  function SelectedKeys(lib: Library, s: StoreState, q: Query): set<string> {
    set k | k in s.records && Selected(lib, s.records[k], q)
  }

  /** Equally named indexes that disagree on their contract, or share a value that must be unique. */
  predicate IndexesClash(lib: Library, a: IndexKey, b: IndexKey) {
    lib.fold(a.name) == lib.fold(b.name) &&
    (|| a.unique != b.unique
     || a.caseExact != b.caseExact
     || (a.unique && if a.caseExact then a.value == b.value else lib.fold(a.value) == lib.fold(b.value)))
  }

  predicate RecordsClash(lib: Library, a: Record, b: Record) {
    exists i, j | 0 <= i < |a.indexes| && 0 <= j < |b.indexes| :: IndexesClash(lib, a.indexes[i], b.indexes[j])
  }

  predicate Neighbours(a: Record, b: Record) {
    a.scope == b.scope && a.resourceType == b.resourceType
  }

  predicate IndexConflict(lib: Library, s: StoreState, r: Record, excludedKey: string) {
    exists k | k in s.records && k != excludedKey ::
      Neighbours(s.records[k], r) && RecordsClash(lib, r, s.records[k])
  }

  predicate IdentityTaken(s: StoreState, r: Record) {
    exists k | k in s.records :: s.records[k].id == r.id || k == RecordKey(r.resourceType, r.id)
  }

  predicate Reserves(t: Tombstone, r: Record) {
    || t.id == r.id
    || (r.externalId != "" && t.scope == r.scope && t.resourceType == r.resourceType && t.externalId == r.externalId)
  }

  function CreateResult(lib: Library, s: StoreState, r: Record): Result<StoreState> {
    if !ValidRecord(lib, r) then Err(Invalid)
    else if IdentityTaken(s, r) then Err(Conflict)
    else if exists k | k in s.tombstones :: Reserves(s.tombstones[k], r) then Err(Tombstoned)
    else if IndexConflict(lib, s, r, "") then Err(Conflict)
    else Ok(s.(records := s.records[RecordKey(r.resourceType, r.id) := r]))
  }

  function ReplaceResult(lib: Library, s: StoreState, r: Record, expected: string): Result<StoreState> {
    var key := RecordKey(r.resourceType, r.id);
    if !ValidRecord(lib, r) then Err(Invalid)
    else if key !in s.records || s.records[key].scope != r.scope then Err(NotFound)
    else if expected == "" || s.records[key].version != expected then Err(PreconditionFailed)
    else if r.created != s.records[key].created || r.manager != s.records[key].manager then Err(Invalid)
    else if IndexConflict(lib, s, r, key) then Err(Conflict)
    else Ok(s.(records := s.records[key := r]))
  }

  predicate TombstoneFits(t: Tombstone, r: Record, scope: string, resourceType: string, id: string) {
    && t.scope == scope && t.resourceType == resourceType && t.id == id
    && t.deletedAt != ZERO_TIME
    && t.version == r.version && t.externalId == r.externalId && t.manager == r.manager
  }

  function DeleteResult(s: StoreState, scope: string, resourceType: string, id: string, expected: string, t: Tombstone)
    : Result<StoreState>
  {
    var key := RecordKey(resourceType, id);
    if key !in s.records || s.records[key].scope != scope then Err(NotFound)
    else if expected == "" || s.records[key].version != expected then Err(PreconditionFailed)
    else if !TombstoneFits(t, s.records[key], scope, resourceType, id) then Err(Invalid)
    else if key in s.tombstones then Err(Tombstoned)
    else Ok(StoreState(s.records - {key}, s.tombstones[key := t]))
  }

  // ---------- the transaction object ----------

  class MemoryTransaction {
    var records: map<string, Record>
    var tombstones: map<string, Tombstone>
    const lib: Library

    constructor (lib: Library, source: StoreState)
      ensures this.lib == lib && State() == source
    {
      this.lib := lib;
      records, tombstones := source.records, source.tombstones;
    }

    function State(): StoreState
      reads this
    {
      StoreState(records, tombstones)
    }

    method Get(scope: string, resourceType: string, id: string) returns (r: Result<Record>)
      ensures r == GetResult(State(), scope, resourceType, id)
    {
      var key := RecordKey(resourceType, id);
      if key !in records || records[key].scope != scope {
        return Err(NotFound);
      }
      return Ok(records[key]);
    }

    /** Fails rather than truncate: the result is every selected record, ordered by ID. */
    method List(q: Query) returns (r: Result<seq<Record>>)
      ensures !ValidQuery(q) ==> r == Err(Invalid)
      ensures ValidQuery(q) ==>
        if |SelectedKeys(lib, State(), q)| > q.limit then r == Err(TooMany)
        else
          && r.Ok?
          && |r.value| == |SelectedKeys(lib, State(), q)|
          && (forall x :: x in r.value <==> exists k :: k in SelectedKeys(lib, State(), q) && records[k] == x)
          && (DistinctIds(records) ==> Sorted(ById, r.value))
    {
      if !ValidQuery(q) {
        return Err(Invalid);
      }
      ghost var all := SelectedKeys(lib, State(), q);
      var found: seq<Record> := [];
      ghost var keys: seq<string> := [];
      var rest := records.Keys;
      while rest != {}
        invariant rest <= records.Keys
        invariant |found| == |keys| <= q.limit
        invariant Distinct(keys)
        invariant forall k :: k in keys <==> k in all && k !in rest
        invariant forall i | 0 <= i < |found| :: keys[i] in records && found[i] == records[keys[i]]
        decreases rest
      {
        var key :| key in rest;
        rest := rest - {key};
        if Selected(lib, records[key], q) {
          found := found + [records[key]];
          keys := keys + [key];
          if |found| > q.limit {
            DistinctFits(keys, all);
            return Err(TooMany);
          }
        }
      }
      DistinctFills(keys, all);
      var sorted := Sort(ById, found);
      SameElements(sorted, found);
      if DistinctIds(records) {
        IdsOrder(records, keys, found);
        SortSorts(ById, found);
      }
      forall x
        ensures x in found <==> exists k :: k in all && records[k] == x
      {
        if k :| k in all && records[k] == x {
          assert k in keys;
          var i :| 0 <= i < |keys| && keys[i] == k;
          assert found[i] == x;
        }
      }
      return Ok(sorted);
    }

    /** Every tombstone of the scope and type, ordered by ID. */
    method Tombstones(scope: string, resourceType: string) returns (r: Result<seq<Tombstone>>)
      ensures r.Err? <==> scope == "" || !ValidName(resourceType)
      ensures r.Err? ==> r == Err(Invalid)
      ensures r.Ok? ==>
        && (forall x :: x in r.value <==>
              exists k :: k in tombstones && tombstones[k] == x && x.scope == scope && x.resourceType == resourceType)
        && (DistinctTombstoneIds(tombstones) ==> Sorted(ByTombstoneId, r.value))
    {
      if scope == "" || !ValidName(resourceType) {
        return Err(Invalid);
      }
      var found: seq<Tombstone> := [];
      ghost var keys: seq<string> := [];
      var rest := tombstones.Keys;
      while rest != {}
        invariant rest <= tombstones.Keys && |found| == |keys| && Distinct(keys)
        invariant forall i | 0 <= i < |found| ::
          keys[i] in tombstones && keys[i] !in rest && found[i] == tombstones[keys[i]]
        invariant forall x :: x in found <==>
          exists k :: k in tombstones && k !in rest && tombstones[k] == x && x.scope == scope
            && x.resourceType == resourceType
        decreases rest
      {
        var key :| key in rest;
        rest := rest - {key};
        if tombstones[key].scope == scope && tombstones[key].resourceType == resourceType {
          found := found + [tombstones[key]];
          keys := keys + [key];
        }
      }
      var sorted := Sort(ByTombstoneId, found);
      SameElements(sorted, found);
      if DistinctTombstoneIds(tombstones) {
        TombstonesOrder(tombstones, keys, found);
        SortSorts(ByTombstoneId, found);
      }
      return Ok(sorted);
    }

    method HasIndexConflict(record: Record, excludedKey: string) returns (conflict: bool)
      ensures conflict <==> IndexConflict(lib, State(), record, excludedKey)
    {
      var rest := records.Keys;
      while rest != {}
        invariant rest <= records.Keys
        invariant forall k | k in records && k !in rest && k != excludedKey ::
          !(Neighbours(records[k], record) && RecordsClash(lib, record, records[k]))
        decreases rest
      {
        var key :| key in rest;
        rest := rest - {key};
        var existing := records[key];
        if key != excludedKey && Neighbours(existing, record) {
          for i := 0 to |record.indexes|
            invariant forall a, b | 0 <= a < i && 0 <= b < |existing.indexes| ::
              !IndexesClash(lib, record.indexes[a], existing.indexes[b])
          {
            for j := 0 to |existing.indexes|
              invariant forall b | 0 <= b < j :: !IndexesClash(lib, record.indexes[i], existing.indexes[b])
            {
              if IndexesClash(lib, record.indexes[i], existing.indexes[j]) {
                return true;
              }
            }
          }
        }
      }
      return false;
    }

    method Create(record: Record) returns (error: Option<StoreError>)
      modifies this
      ensures match CreateResult(lib, old(State()), record)
              case Ok(next) => error == None && State() == next
              case Err(e) => error == Some(e) && State() == old(State())
    {
      if !ValidRecord(lib, record) {
        return Some(Invalid);
      }
      var key := RecordKey(record.resourceType, record.id);
      if exists k | k in records :: records[k].id == record.id || k == key {
        return Some(Conflict);
      }
      if exists k | k in tombstones :: Reserves(tombstones[k], record) {
        return Some(Tombstoned);
      }
      var conflict := HasIndexConflict(record, "");
      if conflict {
        return Some(Conflict);
      }
      records := records[key := record];
      return None;
    }

    method Replace(record: Record, expected: string) returns (error: Option<StoreError>)
      modifies this
      ensures match ReplaceResult(lib, old(State()), record, expected)
              case Ok(next) => error == None && State() == next
              case Err(e) => error == Some(e) && State() == old(State())
    {
      if !ValidRecord(lib, record) {
        return Some(Invalid);
      }
      var key := RecordKey(record.resourceType, record.id);
      if key !in records || records[key].scope != record.scope {
        return Some(NotFound);
      }
      if expected == "" || records[key].version != expected {
        return Some(PreconditionFailed);
      }
      if record.created != records[key].created || record.manager != records[key].manager {
        return Some(Invalid);
      }
      var conflict := HasIndexConflict(record, key);
      if conflict {
        return Some(Conflict);
      }
      records := records[key := record];
      return None;
    }

    method Delete(scope: string, resourceType: string, id: string, expected: string, tombstone: Tombstone)
      returns (error: Option<StoreError>)
      modifies this
      ensures match DeleteResult(old(State()), scope, resourceType, id, expected, tombstone)
              case Ok(next) => error == None && State() == next
              case Err(e) => error == Some(e) && State() == old(State())
    {
      var key := RecordKey(resourceType, id);
      if key !in records || records[key].scope != scope {
        return Some(NotFound);
      }
      if expected == "" || records[key].version != expected {
        return Some(PreconditionFailed);
      }
      if !TombstoneFits(tombstone, records[key], scope, resourceType, id) {
        return Some(Invalid);
      }
      if key in tombstones {
        return Some(Tombstoned);
      }
      records := records - {key};
      tombstones := tombstones[key := tombstone];
      return None;
    }
  }

  // ---------- listing ----------

  predicate ById(a: Record, b: Record) {
    CompareText(a.id, b.id) < 0
  }

  predicate ByTombstoneId(a: Tombstone, b: Tombstone) {
    CompareText(a.id, b.id) < 0
  }

  ghost predicate DistinctTombstoneIds(tombstones: map<string, Tombstone>) {
    forall j, k | j in tombstones && k in tombstones && j != k :: tombstones[j].id != tombstones[k].id
  }

  ghost predicate DistinctIds(records: map<string, Record>) {
    forall j, k | j in records && k in records && j != k :: records[j].id != records[k].id
  }

  lemma DistinctFits<T>(keys: seq<T>, all: set<T>)
    requires Distinct(keys) && forall k | k in keys :: k in all
    ensures |keys| <= |all|
  {
    DistinctFills(keys, set k | k in keys);
    var seen := set k | k in keys;
    assert all == seen + (all - seen);
  }

  lemma {:induction false} DistinctFills<T>(keys: seq<T>, all: set<T>)
    requires Distinct(keys) && forall k :: k in keys <==> k in all
    ensures |keys| == |all|
  {
    if keys == [] {
      assert all == {};
    } else {
      var init, last := keys[..|keys| - 1], keys[|keys| - 1];
      assert forall k :: k in keys <==> k in init || k == last;
      DistinctFills(init, all - {last});
    }
  }

  /** Comparing by IDs that tell elements apart is a strict total order. */
  lemma IdsMakeAnOrder<T(!new)>(id: T -> string, less: (T, T) -> bool, found: seq<T>)
    requires forall x, y | x in found && y in found :: less(x, y) <==> CompareText(id(x), id(y)) < 0
    requires forall x, y | x in found && y in found && x != y :: id(x) != id(y)
    ensures StrictTotalOn(less, found)
  {
    forall x, y | x in found && y in found
      ensures less(x, y) ==> !less(y, x)
      ensures x != y ==> less(x, y) || less(y, x)
      ensures !less(x, x)
    {
      CompareTextAntisymmetric(id(x), id(y));
      CompareTextAntisymmetric(id(x), id(x));
    }
    forall x, y, z | x in found && y in found && z in found && less(x, y) && less(y, z)
      ensures less(x, z)
    {
      CompareTextTransitive(id(x), id(y), id(z));
    }
  }

  lemma IdsOrder(records: map<string, Record>, keys: seq<string>, found: seq<Record>)
    requires DistinctIds(records) && Distinct(keys) && |found| == |keys|
    requires forall i | 0 <= i < |found| :: keys[i] in records && found[i] == records[keys[i]]
    ensures Distinct(found) && StrictTotalOn(ById, found)
  {
    IdsMakeAnOrder((r: Record) => r.id, ById, found);
  }

  lemma TombstonesOrder(tombstones: map<string, Tombstone>, keys: seq<string>, found: seq<Tombstone>)
    requires DistinctTombstoneIds(tombstones) && Distinct(keys) && |found| == |keys|
    requires forall i | 0 <= i < |found| :: keys[i] in tombstones && found[i] == tombstones[keys[i]]
    ensures Distinct(found) && StrictTotalOn(ByTombstoneId, found)
  {
    IdsMakeAnOrder((t: Tombstone) => t.id, ByTombstoneId, found);
  }

  // ---------- transactions ----------

  /** The mutating calls of a callback. Reads do not change the state. */
  datatype Command =
    | Create(record: Record)
    | Replace(replacement: Record, expected: string)
    | Delete(scope: string, resourceType: string, id: string, version: string, tombstone: Tombstone)

  function CommandResult(lib: Library, s: StoreState, c: Command): Result<StoreState> {
    match c
    case Create(record) => CreateResult(lib, s, record)
    case Replace(record, expected) => ReplaceResult(lib, s, record, expected)
    case Delete(scope, resourceType, id, version, tombstone) =>
      DeleteResult(s, scope, resourceType, id, version, tombstone)
  }

  /** A rejected call leaves the state alone. */
  function Step(lib: Library, s: StoreState, c: Command): StoreState {
    match CommandResult(lib, s, c)
    case Ok(next) => next
    case Err(_) => s
  }

  function Steps(lib: Library, s: StoreState, script: seq<Command>): StoreState {
    if script == [] then s else Step(lib, Steps(lib, s, script[..|script| - 1]), script[|script| - 1])
  }

  /** One call of Transact: the calls its callback makes, whether the callback returns an error,
      and whether the context is cancelled before or after the callback runs. */
  datatype Attempt = Attempt(script: seq<Command>, fails: bool, cancelledBefore: bool, cancelledAfter: bool)

  predicate Commits(a: Attempt) {
    !a.fails && !a.cancelledBefore && !a.cancelledAfter
  }

  class MemoryStore {
    var state: StoreState
    const lib: Library

    constructor (lib: Library)
      ensures this.lib == lib && state == EMPTY
    {
      this.lib := lib;
      state := EMPTY;
    }

    /** A callback works on a private copy. */
    method Begin() returns (working: MemoryTransaction)
      ensures fresh(working) && working.lib == lib && working.State() == state
    {
      working := new MemoryTransaction(lib, state);
    }

    /** The copy replaces the state only on success. */
    method Commit(working: MemoryTransaction)
      modifies this
      ensures state == working.State()
    {
      state := working.State();
    }

    /** One transaction: all of the callback's calls or none. */
    method Transact(attempt: Attempt) returns (committed: bool)
      modifies this
      ensures committed <==> Commits(attempt)
      ensures state == if Commits(attempt) then Steps(lib, old(state), attempt.script) else old(state)
    {
      if attempt.cancelledBefore {
        return false;
      }
      var working := Begin();
      for n := 0 to |attempt.script|
        invariant working.lib == lib && fresh(working)
        invariant state == old(state)
        invariant working.State() == Steps(lib, old(state), attempt.script[..n])
      {
        assert attempt.script[..n + 1][..n] == attempt.script[..n];
        var error;
        match attempt.script[n]
        case Create(record) => error := working.Create(record);
        case Replace(record, expected) => error := working.Replace(record, expected);
        case Delete(scope, resourceType, id, version, tombstone) =>
          error := working.Delete(scope, resourceType, id, version, tombstone);
      }
      assert attempt.script[..|attempt.script|] == attempt.script;
      if attempt.fails || attempt.cancelledAfter {
        return false;
      }
      Commit(working);
      return true;
    }
  }
}
