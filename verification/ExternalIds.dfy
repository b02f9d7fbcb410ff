/** External IDs in the store: nothing keeps them unique among live records, which calls would have
    to, and what a duplicate means for reconciliation. */
module ExternalIds {
  import opened Values
  import opened Text
  import opened Records
  import opened Memory
  import opened StoreSafety
  import opened Reconciler
  import Etag

  /** Two live records of one scope and type with the same external ID. */
  predicate SharesExternalId(a: Record, b: Record) {
    Neighbours(a, b) && a.externalId != "" && a.externalId == b.externalId
  }

  ghost predicate ExternalIdsUnique(s: StoreState) {
    forall j, k | j in s.records && k in s.records && j != k :: !SharesExternalId(s.records[j], s.records[k])
  }

  // ---------- when a call keeps external IDs unique ----------

  lemma PutKeepsExternalIds(s: StoreState, key: string, r: Record)
    requires forall j, k | j in s.records && k in s.records && j != k && j != key && k != key ::
      !SharesExternalId(s.records[j], s.records[k])
    ensures ExternalIdsUnique(s.(records := s.records[key := r])) <==>
      r.externalId == "" || forall k | k in s.records && k != key :: !SharesExternalId(s.records[k], r)
  {
    var next := s.(records := s.records[key := r]);
    if ExternalIdsUnique(next) {
      forall k | k in s.records && k != key
        ensures !SharesExternalId(s.records[k], r)
      {
        assert next.records[k] == s.records[k] && next.records[key] == r;
      }
    }
  }

  /** An accepted create keeps external IDs unique exactly when the new record has none, or no live
      neighbour has the same. */
  lemma CreateKeepsExternalIds(lib: Library, s: StoreState, r: Record)
    requires ExternalIdsUnique(s) && CreateResult(lib, s, r).Ok?
    ensures ExternalIdsUnique(CreateResult(lib, s, r).value) <==>
      r.externalId == "" || forall k | k in s.records && Neighbours(s.records[k], r) ::
        s.records[k].externalId != r.externalId
  {
    hide ValidRecord, IndexConflict;
    var key := RecordKey(r.resourceType, r.id);
    assert key !in s.records;
    PutKeepsExternalIds(s, key, r);
  }

  /** And an accepted replacement, leaving out the record it replaces. */
  lemma ReplaceKeepsExternalIds(lib: Library, s: StoreState, r: Record, expected: string)
    requires ExternalIdsUnique(s) && ReplaceResult(lib, s, r, expected).Ok?
    ensures ExternalIdsUnique(ReplaceResult(lib, s, r, expected).value) <==>
      r.externalId == "" || forall k | k in s.records && k != RecordKey(r.resourceType, r.id)
        && Neighbours(s.records[k], r) ::
        s.records[k].externalId != r.externalId
  {
    hide ValidRecord, IndexConflict;
    PutKeepsExternalIds(s, RecordKey(r.resourceType, r.id), r);
  }

  // ---------- two records with one external ID ----------

  lemma DifferentKeys(resourceType: string, a: string, b: string)
    requires a != b
    ensures RecordKey(resourceType, a) != RecordKey(resourceType, b)
  {
    var n := |resourceType| + 1;
    assert RecordKey(resourceType, a)[n..] == a && RecordKey(resourceType, b)[n..] == b;
  }

  /** Creating any two valid records without indexes and with different IDs succeeds, whatever their
      external IDs. */
  lemma BothAreCreated(lib: Library, a: Record, b: Record)
    requires ValidRecord(lib, a) && ValidRecord(lib, b) && a.id != b.id && a.indexes == b.indexes == []
    requires a.resourceType == b.resourceType
    ensures var one := CreateResult(lib, EMPTY, a);
      && one == Ok(EMPTY.(records := map[RecordKey(a.resourceType, a.id) := a]))
      && CreateResult(lib, one.value, b)
         == Ok(one.value.(records := one.value.records[RecordKey(b.resourceType, b.id) := b]))
  {
    hide ValidRecord;
    DifferentKeys(a.resourceType, a.id, b.id);
    assert EMPTY.records[RecordKey(a.resourceType, a.id) := a] == map[RecordKey(a.resourceType, a.id) := a];
  }

  const SHARED_DATA := "{\"externalId\":\"e\"}"

  /** A library that knows one piece of data and makes the version of its ID. */
  function SampleLibrary(): Library {
    Library(
      s => s, s => s,
      d => if d == map["externalId" := Value.Text("e")] then Some(SHARED_DATA) else None,
      s => if s == SHARED_DATA then Some(map["externalId" := Value.Text("e")]) else None,
      (v: VersionInput) => Some("\"" + v.id + "\""))
  }

  function Sample(id: string): Record {
    Record("s", "User", id, "e", "m", "\"" + id + "\"", "", 1, 1, SHARED_DATA, [])
  }

  lemma {:induction false} PlainText(s: string, maximum: nat)
    requires |s| <= maximum && forall i | 0 <= i < |s| :: 0x20 <= s[i] as int < 0x7f
    ensures Utf8Length(s) == |s| && ValidString(s, maximum)
  {
    if s != "" {
      PlainText(s[1..], maximum);
    }
  }

  lemma SampleVersion(id: string)
    requires id == "1" || id == "2"
    ensures Etag.SingleStrongTag("\"" + id + "\"") == Some(id)
  {
    var tag := Etag.EntityTag(id, false);
    assert Etag.WellFormedTag(tag);
    Etag.TagListRoundTrip([tag]);
    assert Etag.Show([tag]) == "\"" + id + "\"";
  }

  lemma SampleIsValid(id: string)
    requires id == "1" || id == "2"
    ensures ValidRecord(SampleLibrary(), Sample(id))
  {
    PlainText("s", 1024);
    PlainText("m", 1024);
    PlainText("e", MAXIMUM_STRING_BYTES);
    PlainText(id, 1024);
    SampleVersion(id);
    hide Etag.SingleStrongTag, ValidString;
    assert ValidName("User");
  }

  /** Two creates with one scope, type and external ID and different IDs are both accepted. */
  lemma ExternalIdsAreNotUnique()
    ensures var one := CreateResult(SampleLibrary(), EMPTY, Sample("1"));
      && one.Ok? && CreateResult(SampleLibrary(), one.value, Sample("2")).Ok?
      && !ExternalIdsUnique(CreateResult(SampleLibrary(), one.value, Sample("2")).value)
  {
    SampleIsValid("1");
    SampleIsValid("2");
    hide ValidRecord, CreateResult, SampleLibrary;
    BothAreCreated(SampleLibrary(), Sample("1"), Sample("2"));
    DifferentKeys("User", "1", "2");
    var one := CreateResult(SampleLibrary(), EMPTY, Sample("1")).value;
    var two := CreateResult(SampleLibrary(), one, Sample("2")).value;
    var a, b := RecordKey("User", "1"), RecordKey("User", "2");
    assert two.records[a] == Sample("1") && two.records[b] == Sample("2");
    assert SharesExternalId(two.records[a], two.records[b]);
  }

  // ---------- what the reconciler makes of it ----------

  lemma SameExternalKey(a: Record, b: Record)
    requires SharesExternalId(a, b)
    ensures ExternalKey(a) == ExternalKey(b)
  {
  }

  /** Within the scope of a job, external IDs are unique exactly when the survey meets no duplicate. */
  lemma DuplicatesAreSeen(lib: Library, s: StoreState, scope: string, types: set<string>)
    requires Sound(lib, s)
    ensures NoDuplicates(s, scope, types) <==>
      forall j, k | j in LiveKeys(s, scope, types) && k in LiveKeys(s, scope, types) && j != k ::
        !SharesExternalId(s.records[j], s.records[k])
  {
    hide ValidRecord, IdsUnique, IndexesUnique;
    forall j, k | j in LiveKeys(s, scope, types) && k in LiveKeys(s, scope, types) && j != k
      ensures ExternalKey(s.records[j]) == ExternalKey(s.records[k]) <==> SharesExternalId(s.records[j], s.records[k])
    {
      RecordIsPlain(lib, s.records[j]);
      RecordIsPlain(lib, s.records[k]);
      if ExternalKey(s.records[j]) == ExternalKey(s.records[k]) {
        KeysAreInjective(s.records[j].resourceType, s.records[j].externalId, s.records[k].resourceType,
                         s.records[k].externalId);
      }
    }
  }

  lemma RecordIsPlain(lib: Library, r: Record)
    requires ValidRecord(lib, r)
    ensures '\0' !in r.resourceType && '\0' !in r.externalId
  {
    ValidNameHasNoNul(r.resourceType);
    ValidTextHasNoNul(r.externalId, MAXIMUM_STRING_BYTES);
  }

  /** A duplicate among the types and the scope of a job stops every reconciliation there, whatever is
      desired and whoever manages the records. */
  lemma DuplicatesStopReconciliation(lib: Library, s: StoreState, types: set<string>, job: Job, plan: seq<Prepared>,
                                     now: int, ids: seq<string>, j: string, k: string)
    requires j in LiveKeys(s, job.scope, types) && k in LiveKeys(s, job.scope, types) && j != k
    requires SharesExternalId(s.records[j], s.records[k])
    ensures ReconcileResult(lib, types, job, plan, s, now, ids) == None
  {
    SameExternalKey(s.records[j], s.records[k]);
  }
}
