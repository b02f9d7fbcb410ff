/** What a record is made of when it is written, and which records are valid. */
module RecordLaws {
  import opened Values
  import opened Text
  import opened Records
  import opened Etag

  /** A new record says what it was made of: the caller's coordinates, the encoded document with its indexes and
      external ID, one time for creation and modification, and the version of exactly this content. */
  lemma NewRecordsAre(lib: Library, scope: string, manager: string, resourceType: string, id: string,
                      externalId: string, document: Document, indexes: seq<IndexKey>, now: int, secret: string)
    ensures var made := NewRecord(lib, scope, manager, resourceType, id, externalId, document, indexes, now, secret);
      && (made.Some? ==>
            var r := made.value;
            && r.scope == scope && r.manager == manager && r.resourceType == resourceType && r.id == id
            && r.externalId == externalId && r.indexes == indexes && r.credentialVersion == secret
            && r.created == now && r.lastModified == now && lib.encode(document) == Some(r.data)
            && lib.hash(VersionInput(resourceType, id, r.data, secret)) == Some(r.version) && ValidRecord(lib, r))
      && (made.None? <==>
            forall r: Record | ValidRecord(lib, r) ::
              !(&& r.scope == scope && r.manager == manager && r.resourceType == resourceType && r.id == id
                && r.externalId == externalId && r.indexes == indexes && r.credentialVersion == secret
                && r.created == now && r.lastModified == now && lib.encode(document) == Some(r.data)))
  {
    hide ValidRecord;
    forall r: Record | ValidRecord(lib, r)
      ensures lib.hash(VersionInput(r.resourceType, r.id, r.data, r.credentialVersion)) == Some(r.version)
    {
      ValidVersions(lib, r);
    }
  }

  lemma ValidVersions(lib: Library, r: Record)
    requires ValidRecord(lib, r)
    ensures lib.hash(VersionInput(r.resourceType, r.id, r.data, r.credentialVersion)) == Some(r.version)
  {
  }

  /** A replacement with the same data, external ID and credential is the record itself. Any other keeps coordinates,
      creation time and manager, takes the new content, and is modified now, or just after the last time if that is
      not earlier. */
  lemma ReplacementsAre(lib: Library, current: Record, externalId: string, document: Document, indexes: seq<IndexKey>,
                        now: int, credential: Option<string>)
    ensures var made := ReplacementRecord(lib, current, externalId, document, indexes, now, credential);
      var secret := if credential.Some? then credential.value else current.credentialVersion;
      made.Some? ==>
        && lib.encode(document).Some?
        && var data, r := lib.encode(document).value, made.value.record;
           && (made.value.changed <==>
                 data != current.data || externalId != current.externalId || secret != current.credentialVersion)
           && (!made.value.changed ==> r == current)
           && (made.value.changed ==>
                 && r.scope == current.scope && r.resourceType == current.resourceType && r.id == current.id
                 && r.manager == current.manager && r.created == current.created
                 && r.data == data && r.externalId == externalId && r.indexes == indexes
                 && r.credentialVersion == secret
                 && (if now <= current.lastModified then r.lastModified == current.lastModified + 1
                     else r.lastModified == now)
                 && lib.hash(VersionInput(r.resourceType, r.id, data, secret)) == Some(r.version)
                 && ValidRecord(lib, r))
  {
    hide ValidRecord;
  }

  /** The indexes of a valid record are named texts found at their paths in the data, and no two have one name up to
      case. */
  predicate IndexesAreFound(lib: Library, document: Document, indexes: seq<IndexKey>) {
    && (forall x | x in indexes ::
          && ValidAttributeName(x.name) && x.value != "" && ValidString(x.value, 65536)
          && StringPath(document, x.name) == Found(x.value))
    && forall i, j | 0 <= i < |indexes| && 0 <= j < |indexes| && i != j ::
         lib.lower(indexes[i].name) != lib.lower(indexes[j].name)
  }

  /** The external ID stands in the data, or is empty and does not. */
  predicate NamesExternally(document: Document, externalId: string) {
    if "externalId" in document then document["externalId"] == Value.Text(externalId) else externalId == ""
  }

  /** A record is valid exactly with coordinates within their limits, times in order, data of at most a megabyte that
      decodes, an external ID and indexes as they stand in the data, and the one strong tag that is the version of
      this content. */
  lemma ValidRecordsAre(lib: Library, r: Record)
    ensures ValidRecord(lib, r) <==>
      && r.scope != "" && ValidString(r.scope, 1024) && ValidName(r.resourceType)
      && r.id !in ["", ".", "..", "bulkId"] && ValidString(r.id, 1024) && (forall c | c in r.id :: c != '/')
      && ValidString(r.manager, 1024) && ValidString(r.externalId, 65536)
      && (r.credentialVersion == "" || ValidString(r.credentialVersion, 1024))
      && r.created != 0 && r.created <= r.lastModified
      && r.data != "" && |r.data| <= 1024 * 1024
      && lib.decode(r.data).Some?
      && NamesExternally(lib.decode(r.data).value, r.externalId)
      && IndexesAreFound(lib, lib.decode(r.data).value, r.indexes)
      && r.version != "" && lib.hash(VersionInput(r.resourceType, r.id, r.data, r.credentialVersion)) == Some(r.version)
      && exists text :: Spells(Trim(r.version), [EntityTag(text, false)])
  {
    hide ValidString, ValidName, ValidIndexes, OptionalString, SingleStrongTag, Spells;
    assert ValidResourceId(r.id) <==>
      r.id !in ["", ".", "..", "bulkId"] && ValidString(r.id, 1024) && (forall c | c in r.id :: c != '/');
    forall text
      ensures SingleStrongTag(r.version) == Some(text) <==> Spells(Trim(r.version), [EntityTag(text, false)])
    {
      VersionsAreStrongTags(r.version, text);
    }
    assert SingleStrongTag(r.version).Some? ==> SingleStrongTag(r.version) == Some(SingleStrongTag(r.version).value);
    if lib.decode(r.data).Some? {
      IndexesFound(lib, lib.decode(r.data).value, r.indexes);
      ExternalNames(lib.decode(r.data).value, r.externalId);
    }
    hide ValidResourceId, Trim, IndexesAreFound, NamesExternally;
  }

  lemma ExternalNames(document: Document, externalId: string)
    ensures OptionalString(document, "externalId", 65536) == Some(externalId) && ValidString(externalId, 65536) <==>
      NamesExternally(document, externalId) && ValidString(externalId, 65536)
  {
    hide ValidString;
    assert "externalId" !in document || document["externalId"].Text?
      || OptionalString(document, "externalId", 65536).None?;
  }

  lemma IndexesFound(lib: Library, document: Document, indexes: seq<IndexKey>)
    ensures ValidIndexes(lib, document, indexes) <==> IndexesAreFound(lib, document, indexes)
  {
    hide ValidAttributeName, ValidString, StringPath;
    assert forall i | 0 <= i < |indexes| :: indexes[i] in indexes;
  }
}
