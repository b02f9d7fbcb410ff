/** The write paths of the server: create, conditional replacement (PUT and PATCH) and delete,
    each one transaction that checks its preconditions against the record it changes. */
module ServerWrites {
  import opened Values
  import opened Records
  import opened Memory
  import opened Etag

  /** A normalized resource ready to be stored. */
  datatype Edited = Edited(document: Document, indexes: seq<IndexKey>, externalId: string)

  /** A PUT or PATCH. edit computes the new resource from the current document: for PUT it checks
      mutability and normalizes the body, for PATCH it applies the operations first. None is any
      client error on the way. credential is a new revision when a password is written. */
  datatype WriteRequest = WriteRequest(
    scope: string, resourceType: string, id: string, ifMatch: string, ifNoneMatch: string,
    edit: Document -> Option<Edited>, credential: Option<string>, now: int)

  datatype RemoveRequest = RemoveRequest(
    scope: string, resourceType: string, id: string, ifMatch: string, ifNoneMatch: string, now: int)

  datatype CreateRequest = CreateRequest(
    scope: string, manager: string, resourceType: string, id: string, edited: Option<Edited>, credential: string,
      now: int)

  datatype Failure = BadRequest | StoreFailed(error: StoreError)

  datatype Reply<+T> = Done(value: T) | Failed(failure: Failure)

  // ---------- preconditions ----------

  function StrongPreconditions(ifMatch: string, ifNoneMatch: string, version: string): Option<Failure> {
    match IfMatch(ifMatch, version, true)
    case None => Some(BadRequest)
    case Some(false) => Some(StoreFailed(PreconditionFailed))
    case Some(true) =>
      match IfNoneMatch(ifNoneMatch, version, true)
      case None => Some(BadRequest)
      case Some(false) => Some(StoreFailed(PreconditionFailed))
      case Some(true) => None
  }

  /** With weak entity tags If-Match compares weakly, so that tags the server hands out match. */
  function Preconditions(weakTags: bool, ifMatch: string, ifNoneMatch: string, version: string): Option<Failure> {
    if weakTags && ifMatch != "" then
      match Parse(ifMatch)
      case None => Some(BadRequest)
      case Some(candidates) =>
        match SingleStrongTag(version)
        case None => Some(StoreFailed(Invalid))
        case Some(tag) =>
          if candidates.Star? || exists t | t in candidates.tags :: t.text == tag
          then StrongPreconditions("", ifNoneMatch, version)
          else Some(StoreFailed(PreconditionFailed))
    else StrongPreconditions(ifMatch, ifNoneMatch, version)
  }

  // ---------- meaning on a state ----------

  function CreateReply(lib: Library, s: StoreState, q: CreateRequest): Reply<(StoreState, Record)> {
    if q.now == ZERO_TIME || q.edited.None? then Failed(BadRequest)
    else
      var e := q.edited.value;
      match NewRecord(lib, q.scope, q.manager, q.resourceType, q.id, e.externalId, e.document, e.indexes, q.now,
                      q.credential)
      case None => Failed(BadRequest)
      case Some(record) =>
        match CreateResult(lib, s, record)
        case Err(error) => Failed(StoreFailed(error))
        case Ok(next) => Done((next, record))
  }

  function WriteReply(lib: Library, weakTags: bool, s: StoreState, q: WriteRequest): Reply<(StoreState, Record)> {
    if q.now == ZERO_TIME then Failed(BadRequest)
    else
      match GetResult(s, q.scope, q.resourceType, q.id)
      case Err(error) => Failed(StoreFailed(error))
      case Ok(current) =>
        match Preconditions(weakTags, q.ifMatch, q.ifNoneMatch, current.version)
        case Some(failure) => Failed(failure)
        case None =>
          var document := lib.decode(current.data);
          var edited := if document.Some? then q.edit(document.value) else None;
          if edited.None? then Failed(BadRequest)
          else
            var e := edited.value;
            match ReplacementRecord(lib, current, e.externalId, e.document, e.indexes, q.now, q.credential)
            case None => Failed(BadRequest)
            case Some(Replacement(record, changed)) =>
              if !changed then Done((s, record))
              else
                match ReplaceResult(lib, s, record, current.version)
                case Err(error) => Failed(StoreFailed(error))
                case Ok(next) => Done((next, record))
  }

  function RemoveReply(weakTags: bool, s: StoreState, q: RemoveRequest): Reply<StoreState> {
    if q.now == ZERO_TIME then Failed(BadRequest)
    else
      match GetResult(s, q.scope, q.resourceType, q.id)
      case Err(error) => Failed(StoreFailed(error))
      case Ok(current) =>
        match Preconditions(weakTags, q.ifMatch, q.ifNoneMatch, current.version)
        case Some(failure) => Failed(failure)
        case None =>
          var tombstone := Tombstone(current.scope, current.resourceType, current.id, current.externalId,
                                     current.manager,
                                     current.version, q.now);
          match DeleteResult(s, q.scope, q.resourceType, q.id, current.version, tombstone)
          case Err(error) => Failed(StoreFailed(error))
          case Ok(next) => Done(next)
  }

  // ---------- the server ----------

  class Server {
    const store: MemoryStore
    const weakTags: bool

    constructor (store: MemoryStore, weakTags: bool)
      ensures this.store == store && this.weakTags == weakTags
    {
      this.store, this.weakTags := store, weakTags;
    }

    method Create(q: CreateRequest) returns (reply: Reply<Record>)
      modifies store
      ensures match CreateReply(store.lib, old(store.state), q)
              case Done((next, record)) => reply == Done(record) && store.state == next
              case Failed(failure) => reply == Failed(failure) && store.state == old(store.state)
    {
      if q.edited.None? || q.now == ZERO_TIME {
        return Failed(BadRequest);
      }
      var e := q.edited.value;
      var tx := store.Begin();
      var record := NewRecord(store.lib, q.scope, q.manager, q.resourceType, q.id, e.externalId, e.document, e.indexes,
                              q.now, q.credential);
      if record.None? {
        return Failed(BadRequest);
      }
      var error := tx.Create(record.value);
      if error.Some? {
        return Failed(StoreFailed(error.value));
      }
      store.Commit(tx);
      return Done(record.value);
    }

    method Write(q: WriteRequest) returns (reply: Reply<Record>)
      modifies store
      ensures match WriteReply(store.lib, weakTags, old(store.state), q)
              case Done((next, record)) => reply == Done(record) && store.state == next
              case Failed(failure) => reply == Failed(failure) && store.state == old(store.state)
    {
      hide ValidRecord, IndexConflict, Parse;
      if q.now == ZERO_TIME {
        return Failed(BadRequest);
      }
      var tx := store.Begin();
      var current := tx.Get(q.scope, q.resourceType, q.id);
      if current.Err? {
        return Failed(StoreFailed(current.error));
      }
      var refusal := Preconditions(weakTags, q.ifMatch, q.ifNoneMatch, current.value.version);
      if refusal.Some? {
        return Failed(refusal.value);
      }
      var document := store.lib.decode(current.value.data);
      if document.None? {
        return Failed(BadRequest);
      }
      var edited := q.edit(document.value);
      if edited.None? {
        return Failed(BadRequest);
      }
      var e := edited.value;
      var next := ReplacementRecord(store.lib, current.value, e.externalId, e.document, e.indexes, q.now, q.credential);
      if next.None? {
        return Failed(BadRequest);
      }
      if next.value.changed {
        var error := tx.Replace(next.value.record, current.value.version);
        if error.Some? {
          return Failed(StoreFailed(error.value));
        }
      }
      store.Commit(tx);
      return Done(next.value.record);
    }

    method Remove(q: RemoveRequest) returns (reply: Reply<()>)
      modifies store
      ensures match RemoveReply(weakTags, old(store.state), q)
              case Done(next) => reply == Done(()) && store.state == next
              case Failed(failure) => reply == Failed(failure) && store.state == old(store.state)
    {
      hide Parse;
      if q.now == ZERO_TIME {
        return Failed(BadRequest);
      }
      var tx := store.Begin();
      var current := tx.Get(q.scope, q.resourceType, q.id);
      if current.Err? {
        return Failed(StoreFailed(current.error));
      }
      var refusal := Preconditions(weakTags, q.ifMatch, q.ifNoneMatch, current.value.version);
      if refusal.Some? {
        return Failed(refusal.value);
      }
      var r := current.value;
      var tombstone := Tombstone(r.scope, r.resourceType, r.id, r.externalId, r.manager, r.version, q.now);
      var error := tx.Delete(q.scope, q.resourceType, q.id, r.version, tombstone);
      if error.Some? {
        return Failed(StoreFailed(error.value));
      }
      store.Commit(tx);
      return Done(());
    }
  }
}
