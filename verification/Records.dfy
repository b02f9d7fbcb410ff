/** Stored records: their validity, their version, and how they are made and replaced. */
module Records {
  import opened Values
  import opened Text
  import Etag

  const MAXIMUM_STRING_BYTES := 65536
  const MAXIMUM_RESOURCE_BYTES := 1048576
  const ZERO_TIME := 0

  datatype IndexKey = IndexKey(name: string, value: string, caseExact: bool, unique: bool)

  /** Times are nanoseconds; data is canonical JSON, one character per byte. */
  datatype Record = Record(
    scope: string, resourceType: string, id: string, externalId: string, manager: string,
    version: string, credentialVersion: string, created: int, lastModified: int,
    data: string, indexes: seq<IndexKey>)

  datatype Tombstone = Tombstone(
    scope: string, resourceType: string, id: string, externalId: string, manager: string,
    version: string, deletedAt: int)

  /** The state a version covers. */
  datatype VersionInput = VersionInput(resourceType: string, id: string, data: string, credentialVersion: string)

  /** Functions of the libraries the store relies on. Two texts are equal under case folding
      when fold sends them to the same text; lower is the separate lower-casing function. */
  datatype Library = Library(
    fold: string -> string,
    lower: string -> string,
    encode: Document -> Option<string>,
    decode: string -> Option<Document>,
    hash: VersionInput -> Option<string>)

  /** No two states share a version. */
  ghost predicate InjectiveVersions(lib: Library) {
    forall a, b | lib.hash(a).Some? && lib.hash(a) == lib.hash(b) :: a == b
  }

  function VersionOf(lib: Library, r: Record): Option<string> {
    lib.hash(VersionInput(r.resourceType, r.id, r.data, r.credentialVersion))
  }

  predicate ValidResourceId(id: string) {
    id != "" && id != "." && id != ".." && id != "bulkId" && ValidString(id, 1024) && '/' !in id
  }

  /** A missing attribute reads as the empty text. */
  function OptionalString(document: Document, name: string, maximum: nat): Option<string> {
    if name !in document then Some("")
    else match document[name]
         case Text(s) => if ValidString(s, maximum) then Some(s) else None
         case _ => None
  }

  datatype Lookup = Missing | Found(text: string) | NotText

  function TextAt(v: Value, path: seq<string>): Lookup {
    if path == [] then (if v.Text? && v.text != "" then Found(v.text) else NotText)
    else if !v.Object? then NotText
    else if path[0] !in v.fields then Missing
    else TextAt(v.fields[path[0]], path[1..])
  }

  function StringPath(document: Document, path: string): Lookup {
    TextAt(Object(document), Split(path, '.'))
  }

  lemma {:induction false} WholePart(s: string)
    requires '.' !in s
    ensures Split(s, '.') == [s]
  {
    if s != "" {
      WholePart(s[1..]);
      assert s == [s[0]] + s[1..];
    }
  }

  lemma TopLevelPath(d: Document, name: string)
    requires '.' !in name
    ensures StringPath(d, name) ==
      if name !in d then Missing else if d[name].Text? && d[name].text != "" then Found(d[name].text) else NotText
  {
    WholePart(name);
    assert [name][1..] == [] && Object(d).fields == d;
    if name in d {
      assert TextAt(d[name], []) == if d[name].Text? && d[name].text != "" then Found(d[name].text) else NotText;
      assert TextAt(Object(d), [name]) == TextAt(d[name], []);
    }
  }

  predicate ValidIndexes(lib: Library, document: Document, indexes: seq<IndexKey>) {
    && (forall i | 0 <= i < |indexes| ::
          && ValidAttributeName(indexes[i].name)
          && indexes[i].value != ""
          && ValidString(indexes[i].value, MAXIMUM_STRING_BYTES)
          && StringPath(document, indexes[i].name) == Found(indexes[i].value))
    && (forall i, j | 0 <= i < j < |indexes| :: lib.lower(indexes[i].name) != lib.lower(indexes[j].name))
  }

  predicate ValidRecord(lib: Library, r: Record) {
    && r.scope != "" && ValidString(r.scope, 1024)
    && ValidName(r.resourceType)
    && ValidResourceId(r.id)
    && ValidString(r.manager, 1024)
    && ValidString(r.externalId, MAXIMUM_STRING_BYTES)
    && r.version != "" && r.created != ZERO_TIME && r.lastModified >= r.created
    && 0 < |r.data| <= MAXIMUM_RESOURCE_BYTES
    && (r.credentialVersion != "" ==> ValidString(r.credentialVersion, 1024))
    && Etag.SingleStrongTag(r.version).Some?
    && lib.decode(r.data).Some?
    && OptionalString(lib.decode(r.data).value, "externalId", MAXIMUM_STRING_BYTES) == Some(r.externalId)
    && VersionOf(lib, r) == Some(r.version)
    && ValidIndexes(lib, lib.decode(r.data).value, r.indexes)
  }

  /** A new record, stamped with the current time and its version. */
  function NewRecord(lib: Library, scope: string, manager: string, resourceType: string, id: string,
                     externalId: string, document: Document, indexes: seq<IndexKey>, now: int,
                     credentialVersion: string): Option<Record>
  {
    var data := lib.encode(document);
    if data.None? then None
    else
      var draft := Record(scope, resourceType, id, externalId, manager, "", credentialVersion, now, now, data.value,
                          indexes);
      var version := VersionOf(lib, draft);
      if version.None? then None
      else
        var record := draft.(version := version.value);
        if ValidRecord(lib, record) then Some(record) else None
  }

  datatype Replacement = Replacement(record: Record, changed: bool)

  /** The record that replaces current. Nothing is stamped when nothing changes. */
  function ReplacementRecord(lib: Library, current: Record, externalId: string, document: Document,
                             indexes: seq<IndexKey>, now: int, credential: Option<string>): Option<Replacement>
  {
    var data := lib.encode(document);
    if data.None? then None
    else
      var credentialVersion := if credential.Some? then credential.value else current.credentialVersion;
      if data.value == current.data && externalId == current.externalId
        && credentialVersion == current.credentialVersion
      then Some(Replacement(current, false))
      else
        var stamp := if now > current.lastModified then now else current.lastModified + 1;
        var draft := current.(data := data.value, externalId := externalId, indexes := indexes,
                              credentialVersion := credentialVersion, lastModified := stamp);
        var version := VersionOf(lib, draft);
        if version.None? then None
        else
          var record := draft.(version := version.value);
          if ValidRecord(lib, record) then Some(Replacement(record, true)) else None
  }

  /** Two records are the same stored resource at two moments of its life. */
  predicate SameIdentity(a: Record, b: Record) {
    && a.scope == b.scope && a.resourceType == b.resourceType && a.id == b.id
    && a.created == b.created && a.manager == b.manager
  }

  /** What one write may do to a record: leave it alone, or change its content and move its time on. */
  predicate Follows(a: Record, b: Record) {
    && SameIdentity(a, b)
    && (a == b ||
        (b.lastModified > a.lastModified
         && (a.data != b.data || a.externalId != b.externalId || a.credentialVersion != b.credentialVersion)))
  }

  /** Under an injective version function one write changes a record exactly when it changes its version. */
  lemma VersionTellsChange(lib: Library, a: Record, b: Record)
    requires InjectiveVersions(lib) && ValidRecord(lib, a) && ValidRecord(lib, b) && Follows(a, b)
    ensures a.version == b.version <==> a == b
  {
    if a.version == b.version {
      assert VersionOf(lib, a) == VersionOf(lib, b);
    }
  }

  /** A replacement reports a change exactly when the version changes; then time moves on, and
      identity, creation time and manager never do. */
  lemma ChangeIsVersionChange(lib: Library, current: Record, externalId: string, document: Document,
                              indexes: seq<IndexKey>, now: int, credential: Option<string>)
    requires InjectiveVersions(lib) && ValidRecord(lib, current)
    requires ReplacementRecord(lib, current, externalId, document, indexes, now, credential).Some?
    ensures var next := ReplacementRecord(lib, current, externalId, document, indexes, now, credential).value;
      && (next.changed <==> next.record.version != current.version)
      && (!next.changed ==> next.record == current)
      && (next.changed ==> next.record.lastModified > current.lastModified && next.record.lastModified >= now)
      && Follows(current, next.record)
      && ValidRecord(lib, next.record)
  {
    var next := ReplacementRecord(lib, current, externalId, document, indexes, now, credential).value.record;
    if next.version == current.version {
      assert VersionOf(lib, next) == VersionOf(lib, current);
    }
  }
}
