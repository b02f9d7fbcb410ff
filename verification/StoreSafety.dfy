/** What every run of transactions keeps: identities, tombstones and index uniqueness. */
module StoreSafety {
  import opened Text
  import opened Records
  import opened Memory

  // ---------- keys ----------

  lemma ValidTextHasNoNul(s: string, maximum: nat)
    requires ValidString(s, maximum)
    ensures '\0' !in s
  {
    assert IsControl('\0');
  }

  lemma ValidNameHasNoNul(s: string)
    requires ValidName(s)
    ensures '\0' !in s
  {
    assert !NameChar('\0');
  }

  /** Records of different types or IDs never share a key. */
  lemma KeysAreInjective(typeA: string, idA: string, typeB: string, idB: string)
    requires '\0' !in typeA && '\0' !in idA
    requires RecordKey(typeA, idA) == RecordKey(typeB, idB)
    ensures typeA == typeB && idA == idB
  {
    var key := RecordKey(typeA, idA);
    assert key[|typeA|] == '\0' && key[|typeB|] == '\0';
    assert forall i | 0 <= i < |typeA| :: key[i] == typeA[i] && typeA[i] in typeA;
    assert forall i | |typeA| < i < |key| :: key[i] == idA[i - |typeA| - 1] && idA[i - |typeA| - 1] in idA;
    assert |typeA| == |typeB|;
    assert typeA == key[..|typeA|] == typeB;
    assert idA == key[|typeA| + 1..] == idB;
  }

  lemma ValidKeysAreInjective(lib: Library, r: Record, resourceType: string, id: string)
    requires ValidRecord(lib, r)
    requires RecordKey(r.resourceType, r.id) == RecordKey(resourceType, id)
    ensures r.resourceType == resourceType && r.id == id
  {
    ValidNameHasNoNul(r.resourceType);
    ValidTextHasNoNul(r.id, 1024);
    KeysAreInjective(r.resourceType, r.id, resourceType, id);
  }

  // ---------- the invariant ----------

  ghost predicate Filed(lib: Library, s: StoreState) {
    && (forall k | k in s.records ::
          ValidRecord(lib, s.records[k]) && k == RecordKey(s.records[k].resourceType, s.records[k].id))
    && (forall k | k in s.tombstones :: k == RecordKey(s.tombstones[k].resourceType, s.tombstones[k].id))
  }

  /** Live IDs are unique over all scopes and types, and no ID is both live and tombstoned. */
  ghost predicate IdsUnique(s: StoreState) {
    && DistinctIds(s.records)
    && (forall j, k | j in s.tombstones && k in s.tombstones && j != k :: s.tombstones[j].id != s.tombstones[k].id)
    && (forall j, k | j in s.records && k in s.tombstones :: s.records[j].id != s.tombstones[k].id)
  }

  /** Neighbouring records agree on index contracts and share no unique value. */
  ghost predicate IndexesUnique(lib: Library, s: StoreState) {
    forall j, k | j in s.records && k in s.records && j != k && Neighbours(s.records[j], s.records[k]) ::
      !RecordsClash(lib, s.records[j], s.records[k])
  }

  ghost predicate Sound(lib: Library, s: StoreState) {
    Filed(lib, s) && IdsUnique(s) && IndexesUnique(lib, s)
  }

  lemma ClashIsSymmetric(lib: Library, a: Record, b: Record)
    ensures RecordsClash(lib, a, b) <==> RecordsClash(lib, b, a)
  {
    if RecordsClash(lib, a, b) {
      var i, j :| 0 <= i < |a.indexes| && 0 <= j < |b.indexes| && IndexesClash(lib, a.indexes[i], b.indexes[j]);
      assert IndexesClash(lib, b.indexes[j], a.indexes[i]);
    }
    if RecordsClash(lib, b, a) {
      var i, j :| 0 <= i < |b.indexes| && 0 <= j < |a.indexes| && IndexesClash(lib, b.indexes[i], a.indexes[j]);
      assert IndexesClash(lib, a.indexes[j], b.indexes[i]);
    }
  }

  lemma PutKeepsIndexesUnique(lib: Library, s: StoreState, key: string, r: Record)
    requires IndexesUnique(lib, s) && !IndexConflict(lib, s, r, key)
    ensures IndexesUnique(lib, s.(records := s.records[key := r]))
  {
    var after := s.records[key := r];
    forall j, k | j in after && k in after && j != k && Neighbours(after[j], after[k])
      ensures !RecordsClash(lib, after[j], after[k])
    {
      ClashIsSymmetric(lib, after[j], after[k]);
    }
  }

  /** Later states continue earlier ones: tombstones stay as they are, and a record stays the
      same resource until it is replaced by its own tombstone. */
  ghost predicate Continues(s: StoreState, later: StoreState) {
    && (forall k | k in s.tombstones :: k in later.tombstones && later.tombstones[k] == s.tombstones[k])
    && (forall k | k in s.records ::
          if k in later.records then SameIdentity(s.records[k], later.records[k])
          else k in later.tombstones && later.tombstones[k].id == s.records[k].id)
  }

  lemma KeysAreNotEmpty(lib: Library, s: StoreState)
    requires Filed(lib, s)
    ensures "" !in s.records
  {
    hide ValidRecord;
  }

  lemma AddKeepsIds(s: StoreState, key: string, r: Record)
    requires IdsUnique(s) && !IdentityTaken(s, r) && key == RecordKey(r.resourceType, r.id)
    requires forall k | k in s.tombstones :: s.tombstones[k].id != r.id
    ensures IdsUnique(s.(records := s.records[key := r]))
    ensures Continues(s, s.(records := s.records[key := r]))
  {
  }

  lemma CreateKeepsSound(lib: Library, s: StoreState, r: Record)
    requires Sound(lib, s) && CreateResult(lib, s, r).Ok?
    ensures Sound(lib, CreateResult(lib, s, r).value)
    ensures Continues(s, CreateResult(lib, s, r).value)
  {
    hide ValidRecord, RecordsClash, IdsUnique, IndexesUnique, IdentityTaken, Continues;
    var key := RecordKey(r.resourceType, r.id);
    assert forall k | k in s.tombstones :: !Reserves(s.tombstones[k], r);
    AddKeepsIds(s, key, r);
    KeysAreNotEmpty(lib, s);
    PutKeepsIndexesUnique(lib, s, key, r);
  }

  lemma UpdateKeepsIds(s: StoreState, key: string, r: Record)
    requires IdsUnique(s) && key in s.records && s.records[key].id == r.id
    ensures IdsUnique(s.(records := s.records[key := r]))
  {
  }

  lemma ReplaceKeepsSound(lib: Library, s: StoreState, r: Record, expected: string)
    requires Sound(lib, s) && ReplaceResult(lib, s, r, expected).Ok?
    ensures Sound(lib, ReplaceResult(lib, s, r, expected).value)
    ensures Continues(s, ReplaceResult(lib, s, r, expected).value)
  {
    hide ValidRecord, RecordsClash, IdsUnique, IndexesUnique;
    var key := RecordKey(r.resourceType, r.id);
    ValidKeysAreInjective(lib, s.records[key], r.resourceType, r.id);
    PutKeepsIndexesUnique(lib, s, key, r);
    UpdateKeepsIds(s, key, r);
  }

  lemma DeleteKeepsSound(lib: Library, s: StoreState, scope: string, resourceType: string, id: string, expected: string,
                         t: Tombstone)
    requires Sound(lib, s) && DeleteResult(s, scope, resourceType, id, expected, t).Ok?
    ensures Sound(lib, DeleteResult(s, scope, resourceType, id, expected, t).value)
    ensures Continues(s, DeleteResult(s, scope, resourceType, id, expected, t).value)
  {
    hide ValidRecord, RecordsClash, IdsUnique, IndexesUnique;
    var key := RecordKey(resourceType, id);
    ValidKeysAreInjective(lib, s.records[key], resourceType, id);
    BuryKeepsIds(s, key, t);
    BuryKeepsRecords(lib, s, key, t);
  }

  lemma BuryKeepsIds(s: StoreState, key: string, t: Tombstone)
    requires IdsUnique(s) && key in s.records && s.records[key].id == t.id
    ensures IdsUnique(StoreState(s.records - {key}, s.tombstones[key := t]))
  {
  }

  lemma BuryKeepsRecords(lib: Library, s: StoreState, key: string, t: Tombstone)
    requires Filed(lib, s) && IndexesUnique(lib, s)
    requires key == RecordKey(t.resourceType, t.id)
    ensures var next := StoreState(s.records - {key}, s.tombstones[key := t]);
      Filed(lib, next) && IndexesUnique(lib, next)
  {
    hide ValidRecord, RecordsClash;
  }

  lemma ContinuesItself(s: StoreState)
    ensures Continues(s, s)
  {
  }

  lemma StepIsSound(lib: Library, s: StoreState, c: Command)
    requires Sound(lib, s)
    ensures Sound(lib, Step(lib, s, c))
    ensures Continues(s, Step(lib, s, c))
  {
    hide Sound, Continues, CreateResult, ReplaceResult, DeleteResult;
    if CommandResult(lib, s, c).Err? {
      ContinuesItself(s);
    } else {
      match c
      case Create(record) => CreateKeepsSound(lib, s, record);
      case Replace(record, expected) => ReplaceKeepsSound(lib, s, record, expected);
      case Delete(scope, resourceType, id, expected, t) =>
        DeleteKeepsSound(lib, s, scope, resourceType, id, expected, t);
    }
  }

  lemma LiveKeyIsNotTombstoned(lib: Library, s: StoreState, key: string)
    requires Sound(lib, s)
    ensures !(key in s.records && key in s.tombstones)
  {
    if key in s.records && key in s.tombstones {
      ValidKeysAreInjective(lib, s.records[key], s.tombstones[key].resourceType, s.tombstones[key].id);
    }
  }

  lemma ContinuesIsTransitive(lib: Library, a: StoreState, b: StoreState, c: StoreState)
    requires Continues(a, b) && Continues(b, c) && Sound(lib, c)
    ensures Continues(a, c)
  {
    forall k | k in a.records
      ensures if k in c.records then SameIdentity(a.records[k], c.records[k])
              else k in c.tombstones && c.tombstones[k].id == a.records[k].id
    {
      LiveKeyIsNotTombstoned(lib, c, k);
    }
  }

  /** Every run of store calls, accepted or rejected, keeps the invariant. */
  lemma {:induction false} RunsAreSound(lib: Library, s: StoreState, script: seq<Command>)
    requires Sound(lib, s)
    ensures Sound(lib, Steps(lib, s, script))
    ensures Continues(s, Steps(lib, s, script))
  {
    if script == [] {
      ContinuesItself(s);
    } else {
      var before := script[..|script| - 1];
      RunsAreSound(lib, s, before);
      StepIsSound(lib, Steps(lib, s, before), script[|script| - 1]);
      ContinuesIsTransitive(lib, s, Steps(lib, s, before), Steps(lib, s, script));
    }
  }

  /** An ID once used is never given to another resource. */
  lemma IdsAreNeverReassigned(lib: Library, s: StoreState, script: seq<Command>, key: string)
    requires Sound(lib, s)
    requires key in Steps(lib, s, script).records
    ensures var r := Steps(lib, s, script).records[key];
      && (forall k | k in s.tombstones :: s.tombstones[k].id != r.id)
      && (forall k | k in s.records && s.records[k].id == r.id :: k == key && SameIdentity(s.records[k], r))
  {
    hide Steps, ValidRecord, IndexesUnique;
    RunsAreSound(lib, s, script);
    var later := Steps(lib, s, script);
    forall k | k in s.records && s.records[k].id == later.records[key].id
      ensures k == key && SameIdentity(s.records[k], later.records[key])
    {
    }
  }

  /** The branch of Delete that finds an existing tombstone is never taken. */
  lemma DeleteNeverMeetsTombstone(lib: Library, script: seq<Command>, scope: string, resourceType: string, id: string,
                                  expected: string, t: Tombstone)
    ensures DeleteResult(Steps(lib, EMPTY, script), scope, resourceType, id, expected, t) != Err(Tombstoned)
  {
    RunsAreSound(lib, EMPTY, script);
    LiveKeyIsNotTombstoned(lib, Steps(lib, EMPTY, script), RecordKey(resourceType, id));
  }

  /** In every reachable state neighbouring records agree on the contract of equally named
      indexes, never share a unique value, and each index value is the one in the record's data. */
  lemma IndexesStayUnique(lib: Library, script: seq<Command>, j: string, k: string, a: nat, b: nat)
    requires var s := Steps(lib, EMPTY, script);
      && j in s.records && k in s.records && j != k && Neighbours(s.records[j], s.records[k])
      && a < |s.records[j].indexes| && b < |s.records[k].indexes|
      && lib.fold(s.records[j].indexes[a].name) == lib.fold(s.records[k].indexes[b].name)
    ensures var s := Steps(lib, EMPTY, script);
      var x, y := s.records[j].indexes[a], s.records[k].indexes[b];
      && x.unique == y.unique && x.caseExact == y.caseExact
      && (x.unique ==> if x.caseExact then x.value != y.value else lib.fold(x.value) != lib.fold(y.value))
      && lib.decode(s.records[j].data).Some?
      && StringPath(lib.decode(s.records[j].data).value, x.name) == Found(x.value)
  {
    hide Steps;
    RunsAreSound(lib, EMPTY, script);
    var s := Steps(lib, EMPTY, script);
    assert !RecordsClash(lib, s.records[j], s.records[k]);
    assert !IndexesClash(lib, s.records[j].indexes[a], s.records[k].indexes[b]);
  }

  /** And so is every index, whether or not a neighbour has one of the same name. */
  lemma IndexesAreInData(lib: Library, script: seq<Command>, k: string, index: IndexKey)
    requires var s := Steps(lib, EMPTY, script); k in s.records && index in s.records[k].indexes
    ensures var r := Steps(lib, EMPTY, script).records[k];
      && lib.decode(r.data).Some?
      && StringPath(lib.decode(r.data).value, index.name) == Found(index.value)
  {
    hide Steps;
    RunsAreSound(lib, EMPTY, script);
  }

  /** In a sound state a lookup finds exactly the live record with these coordinates. */
  lemma LookupsFindTheRecord(lib: Library, s: StoreState, scope: string, resourceType: string, id: string, x: Record)
    requires Sound(lib, s)
    ensures GetResult(s, scope, resourceType, id) == Ok(x) <==>
      x in s.records.Values && x.scope == scope && x.resourceType == resourceType && x.id == id
    ensures GetResult(s, scope, resourceType, id) == Err(NotFound) <==>
      forall k | k in s.records ::
        !(s.records[k].scope == scope && s.records[k].resourceType == resourceType && s.records[k].id == id)
  {
    hide ValidRecord, IdsUnique, IndexesUnique;
    var key := RecordKey(resourceType, id);
    if key in s.records {
      ValidKeysAreInjective(lib, s.records[key], resourceType, id);
    }
    if x in s.records.Values {
      var k :| k in s.records && s.records[k] == x;
      assert k == RecordKey(x.resourceType, x.id);
    }
  }

  // ---------- histories of transactions ----------

  function AfterHistory(lib: Library, s: StoreState, history: seq<Attempt>): StoreState {
    if history == [] then s
    else
      var before := AfterHistory(lib, s, history[..|history| - 1]);
      var last := history[|history| - 1];
      if Commits(last) then Steps(lib, before, last.script) else before
  }

  /** The calls of the committed attempts alone, in order. */
  function CommittedScript(history: seq<Attempt>): seq<Command> {
    if history == [] then []
    else
      CommittedScript(history[..|history| - 1])
      + if Commits(history[|history| - 1]) then history[|history| - 1].script else []
  }

  lemma {:induction false} StepsCompose(lib: Library, s: StoreState, a: seq<Command>, b: seq<Command>)
    ensures Steps(lib, s, a + b) == Steps(lib, Steps(lib, s, a), b)
  {
    if b == [] {
      assert a + b == a;
    } else {
      StepsCompose(lib, s, a, b[..|b| - 1]);
      assert (a + b)[..|a + b| - 1] == a + b[..|b| - 1];
    }
  }

  /** Failed and cancelled attempts leave no trace. */
  lemma {:induction false} HistoryIsItsCommits(lib: Library, s: StoreState, history: seq<Attempt>)
    ensures AfterHistory(lib, s, history) == Steps(lib, s, CommittedScript(history))
  {
    if history != [] {
      var before, last := history[..|history| - 1], history[|history| - 1];
      HistoryIsItsCommits(lib, s, before);
      if Commits(last) {
        StepsCompose(lib, s, CommittedScript(before), last.script);
      } else {
        assert CommittedScript(history) == CommittedScript(before);
      }
    }
  }

  /** A store that has served any history of transactions is in a sound state made by the
      committed ones alone. */
  method ServeHistory(store: MemoryStore, history: seq<Attempt>)
    requires Sound(store.lib, store.state)
    modifies store
    ensures store.state == Steps(store.lib, old(store.state), CommittedScript(history))
    ensures Sound(store.lib, store.state) && Continues(old(store.state), store.state)
  {
    for n := 0 to |history|
      invariant store.state == AfterHistory(store.lib, old(store.state), history[..n])
    {
      assert history[..n + 1][..n] == history[..n];
      var _ := store.Transact(history[n]);
    }
    assert history[..|history|] == history;
    HistoryIsItsCommits(store.lib, old(store.state), history);
    RunsAreSound(store.lib, old(store.state), CommittedScript(history));
  }
}
