/** What the store is sent and what the response says: the data of a call place by place, and the entry
    of every outcome. */
module BulkMeaning {
  import opened Values
  import opened BulkReferences
  import opened BulkExecutor
  import opened BulkTheorems

  // ---------- the data of a call ----------

  /** The innermost field that a place lies in, if any, or else the field around the whole value. */
  function FieldAround(place: seq<Hop>, outer: string): string {
    if place == [] then outer
    else FieldAround(place[1..], if place[0].Field? then place[0].name else outer)
  }

  /** The same kind of value with the same names or the same length, and the same leaf. */
  predicate SameNode(v: Value, w: Value) {
    match v
    case Object(fields) => w.Object? && w.fields.Keys == fields.Keys
    case Array(items) => w.Array? && |w.items| == |items|
    case _ => w == v
  }

  /** A text that names no bulkId. */
  ghost predicate Ordinary(v: Value) {
    forall name: string | name != "" :: v != Text("bulkId:" + name)
  }

  /** Place by place: the shape and all that is no reference stay, and a reference becomes the identifier
      or, in or under a field $ref, the location. */
  lemma {:induction false} ResolvedAt(v: Value, field: string, known: map<string, Reference>, place: seq<Hop>)
    requires Resolve(v, field, known).Some?
    ensures var r := Resolve(v, field, known).value;
      && (AtPlace(v, place).Some? <==> AtPlace(r, place).Some?)
      && (AtPlace(v, place).Some? && Ordinary(AtPlace(v, place).value)
        ==> SameNode(AtPlace(v, place).value, AtPlace(r, place).value))
      && forall name: string | name != "" && AtPlace(v, place) == Some(Text("bulkId:" + name)) ::
           && name in known
           && AtPlace(r, place) == Some(Text(if FieldAround(place, field) == "$ref" then known[name].location
                                        else known[name].id))
    decreases |place|
  {
    if place == [] {
      NodeResolved(v, field, known);
    } else {
      match (place[0], v)
      case (Field(name), Object(fields)) =>
        if name in fields {
          ResolvedAt(fields[name], name, known, place[1..]);
        }
      case (Item(index), Array(items)) =>
        if index < |items| {
          ResolvedAt(items[index], field, known, place[1..]);
        }
      case _ =>
        NodeResolved(v, field, known);
    }
  }

  lemma NodeResolved(v: Value, field: string, known: map<string, Reference>)
    requires Resolve(v, field, known).Some?
    ensures var r := Resolve(v, field, known).value;
      && (Ordinary(v) ==> SameNode(v, r)) && (v.Object? <==> r.Object?) && (v.Array? <==> r.Array?)
      && forall name: string | name != "" && v == Text("bulkId:" + name) ::
           name in known && r == Text(if field == "$ref" then known[name].location else known[name].id)
  {
    if v.Text? && IsReference(v.text) {
      assert v.text == "bulkId:" + v.text[7..];
    }
    forall name: string | name != "" && v == Text("bulkId:" + name)
      ensures IsReference(v.text) && ReferenceName(v.text) == name
    {
      assert ("bulkId:" + name)[7..] == name;
    }
  }

  /** What a place in the data of a call holds, given what the client wrote there: anything but a reference
      as it was written; for a reference the identifier, or in or under $ref the location, of an earlier
      successful operation that declared the name. */
  ghost predicate SentAsMeant(host: Host, request: Request, trace: seq<Event>, t: nat, asked: Value, sent: Value,
                              place: seq<Hop>)
    requires t <= |trace|
  {
    && (AtPlace(asked, place).Some? <==> AtPlace(sent, place).Some?)
    && (AtPlace(asked, place).Some? && Ordinary(AtPlace(asked, place).value) ==>
          SameNode(AtPlace(asked, place).value, AtPlace(sent, place).value))
    && forall name: string | name != "" && AtPlace(asked, place) == Some(Text("bulkId:" + name)) ::
         exists u | 0 <= u < t && Succeeds(trace[u]) && trace[u].index < |request.operations| ::
           && request.operations[trace[u].index].bulkId == name
           && AtPlace(sent, place) == Some(Text(StandsFor(host, trace[u], FieldAround(place, ""))))
  }

  /** What a reference to a successful operation stands for. Only creations have an identifier. */
  function StandsFor(host: Host, e: Event, field: string): string
    requires Succeeds(e)
  {
    if !e.call.verb.Post? then ""
    else if field == "$ref" then host.locate(e.call.collection, e.outcome.id)
    else e.outcome.id
  }

  /** Every call carries what its operation says, with each reference in its data and its path replaced by
      what it stands for. */
  lemma CallsAreMeant(host: Host, request: Request, trace: seq<Event>, t: nat, place: seq<Hop>)
    requires Legal(host, request, trace) && t < |trace| && trace[t].Sent?
    ensures trace[t].index < |request.operations|
    ensures var call, op := trace[t].call, request.operations[trace[t].index];
      && op.path.Some? && call.verb == op.verb && call.version == op.version
      && call.collection == op.path.value.collection
      && (op.path.value.reference == "" ==> call.id == op.path.value.id)
      && (op.path.value.reference != "" ==>
            exists u | 0 <= u < t && Succeeds(trace[u]) && trace[u].index < |request.operations| ::
              && request.operations[trace[u].index].bulkId == op.path.value.reference
              && call.id == StandsFor(host, trace[u], ""))
      && (call.data.Some? <==> op.data.Body?)
      && (op.data.Body? ==>
            SentAsMeant(host, request, trace, t, Object(op.data.document), call.data.value, place))
  {
    PrefixIsLegal(host, request, trace, t);
    var known := After(host, request, trace[..t]).references;
    var op, call := request.operations[trace[t].index], trace[t].call;
    hide Legal, After, Advance, StandingOf, Reached, SkipsAll;
    if op.path.value.reference != "" {
      var u := ReferencesAreOutcomes(host, request, trace[..t], op.path.value.reference);
      assert trace[..t][u] == trace[u];
    }
    if op.data.Body? {
      var asked := Object(op.data.document);
      ResolvedAt(asked, "", known, place);
      hide Resolve, Prepare, Allowed;
      forall name: string | name != "" && AtPlace(asked, place) == Some(Text("bulkId:" + name))
        ensures exists u | 0 <= u < t && Succeeds(trace[u]) && trace[u].index < |request.operations| ::
          && request.operations[trace[u].index].bulkId == name
          && AtPlace(call.data.value, place) == Some(Text(StandsFor(host, trace[u], FieldAround(place, ""))))
      {
        var u := ReferencesAreOutcomes(host, request, trace[..t], name);
        assert trace[..t][u] == trace[u];
      }
    }
  }

  // ---------- the entries of the response ----------

  /** The entry of a successful call. */
  predicate TellsSuccess(host: Host, entry: Entry, op: Operation, call: Call, outcome: Outcome)
    requires outcome.Stored?
  {
    && entry.verb == op.verb && entry.bulkId == op.bulkId && entry.error == None
    && match call.verb
       case Post => entry.status == 201 && entry.version == outcome.tag
                    && entry.location == host.locate(call.collection, outcome.id)
       case Delete => entry.status == 204 && entry.version == ""
                      && entry.location == host.locate(call.collection, call.id)
       case _ => entry.status == 200 && entry.version == outcome.tag
                 && entry.location == host.locate(call.collection, outcome.id)
  }

  /** A status a client may see, with a detail of one line. */
  predicate Sendable(failure: Failure) {
    && 400 <= failure.status <= 599 && failure.detail != ""
    && forall c | c in failure.detail :: c != '\0' && c != '\r' && c != '\n'
  }

  /** The entry of a failure: its own status when it is sendable, and 500 otherwise. */
  predicate TellsFailure(entry: Entry, op: Operation, failure: Failure) {
    && entry.verb == op.verb && entry.bulkId == op.bulkId && entry.version == ""
    && entry.error.Some? && entry.status == entry.error.value.status
    && (if Sendable(failure) then entry.error.value == failure else entry.status == 500)
  }

  /** The status for each error of the store; other errors carry their own. */
  predicate TellsError(entry: Entry, error: StoreError) {
    match error
    case NotFound => entry.status == 404
    case Conflict => entry.status == 409 && entry.error.Some? && entry.error.value.scimType == "uniqueness"
    case Tombstoned => entry.status == 409 && entry.error.Some? && entry.error.value.scimType == "uniqueness"
    case Precondition => entry.status == 412
    case Other => entry.status == 500
    case Protocol(failure) =>
      entry.error.Some? && if Sendable(failure) then entry.error.value == failure else entry.status == 500
  }

  /** Where the resource of a failed operation is, as far as it is known. */
  predicate TellsPlace(host: Host, entry: Entry, op: Operation, known: map<string, Reference>) {
    var path := op.path;
    if path.None? || path.value.collection !in host.collections then entry.location == ""
    else
      var id := if path.value.reference != "" && path.value.reference in known then known[path.value.reference].id
                else path.value.id;
      entry.location == if id == "" then "" else host.locate(path.value.collection, id)
  }

  ghost predicate TellsEvent(host: Host, entry: Entry, op: Operation, e: Event, known: map<string, Reference>) {
    match e
    case Sent(_, call, Stored(id, tag)) => TellsSuccess(host, entry, op, call, Stored(id, tag))
    case Sent(_, _, Rejected(error)) =>
      && entry.verb == op.verb && entry.bulkId == op.bulkId && entry.version == ""
      && TellsError(entry, error) && TellsPlace(host, entry, op, known)
    case Refused(_, failure) => TellsFailure(entry, op, failure) && TellsPlace(host, entry, op, known)
    case Blocked(_) =>
      && TellsFailure(entry, op, Failure(400, "invalidValue", "Bulk dependency is unknown or failed"))
      && TellsPlace(host, entry, op, known)
    case Cyclic(_) =>
      && TellsFailure(entry, op, Failure(409, "invalidValue", "Bulk dependency cycle is unresolved"))
      && TellsPlace(host, entry, op, known)
  }

  lemma FailureTells(host: Host, op: Operation, failure: Failure, known: map<string, Reference>)
    ensures var entry := FailureEntry(host, op, failure, known);
      TellsFailure(entry, op, failure) && TellsPlace(host, entry, op, known)
  {
    assert forall k | 0 <= k < |failure.detail| :: failure.detail[k] in failure.detail;
  }

  lemma NotFoundIsPlain()
    ensures OneLine("SCIM resource was not found")
  {
  }

  lemma ConflictIsPlain()
    ensures OneLine("SCIM resource conflicts with existing state")
  {
  }

  lemma PreconditionIsPlain()
    ensures OneLine("SCIM resource precondition failed")
  {
  }

  lemma OtherIsPlain()
    ensures OneLine("SCIM storage operation failed")
  {
  }

  lemma PlainIsSendable(failure: Failure)
    requires 400 <= failure.status <= 599 && failure.detail != "" && OneLine(failure.detail)
    ensures Sendable(failure)
  {
  }

  lemma StoreErrorsAreSendable(error: StoreError)
    requires !error.Protocol?
    ensures Sendable(SafeFailure(error))
  {
    NotFoundIsPlain();
    ConflictIsPlain();
    PreconditionIsPlain();
    OtherIsPlain();
    hide Sendable, OneLine;
    PlainIsSendable(SafeFailure(error));
  }

  lemma ErrorTells(host: Host, op: Operation, error: StoreError, known: map<string, Reference>)
    ensures var entry := FailureEntry(host, op, SafeFailure(error), known);
      && entry.verb == op.verb && entry.bulkId == op.bulkId && entry.version == ""
      && TellsError(entry, error) && TellsPlace(host, entry, op, known)
  {
    FailureTells(host, op, SafeFailure(error), known);
    if !error.Protocol? {
      StoreErrorsAreSendable(error);
    }
    hide FailureEntry, TellsPlace, Sendable;
  }

  lemma EntryTells(host: Host, ops: seq<Operation>, s: State, e: Event)
    requires e.index < |ops|
    ensures var next := Advance(host, ops, s, e);
      e.index in next.entries && TellsEvent(host, next.entries[e.index], ops[e.index], e, s.references)
  {
    hide FailureEntry, TellsFailure, TellsPlace, SafeFailure, TellsError;
    var op := ops[e.index];
    match e
    case Sent(_, _, Rejected(error)) => ErrorTells(host, op, error, s.references);
    case Sent(_, _, Stored(_, _)) =>
    case Refused(_, failure) => FailureTells(host, op, failure, s.references);
    case Blocked(_) => FailureTells(host, op, BLOCKED, s.references);
    case Cyclic(_) => FailureTells(host, op, CYCLE, s.references);
  }

  /** The entry of every settled operation tells the outcome of the event that settled it. */
  lemma EntriesTellOutcomes(host: Host, request: Request, trace: seq<Event>, t: nat)
    requires Legal(host, request, trace) && t < |trace|
    ensures Legal(host, request, trace[..t]) && trace[t].index < |request.operations|
    ensures var s, i := After(host, request, trace), trace[t].index;
      && i in s.entries
      && TellsEvent(host, s.entries[i], request.operations[i], trace[t], After(host, request, trace[..t]).references)
  {
    EntryIsFinal(host, request, trace, t);
    PrefixIsLegal(host, request, trace, t);
    hide Legal, After, Advance, TellsEvent, Allowed;
    EntryTells(host, request.operations, After(host, request, trace[..t]), trace[t]);
  }

  /** Of a request whose operations are well formed only one with an unknown collection is refused before the
      store is called, and always as an invalid path. */
  lemma RefusalsAreUnknownCollections(host: Host, request: Request, trace: seq<Event>, t: nat, validId: string -> bool)
    requires Legal(host, request, trace) && t < |trace|
    requires forall op | op in request.operations :: WellFormed(op, validId)
    ensures trace[t].index < |request.operations|
    ensures var op := request.operations[trace[t].index];
      && op.path.Some?
      && (trace[t].Refused? ==> op.path.value.collection !in host.collections
                                && trace[t].failure.status == 400 && trace[t].failure.scimType == "invalidPath")
      && (trace[t].Sent? ==> op.path.value.collection in host.collections)
  {
    PrefixIsLegal(host, request, trace, t);
    var s, e := After(host, request, trace[..t]), trace[t];
    assert Allowed(host, request, s, e);
    var op := request.operations[e.index];
    assert op in request.operations;
    if e.Refused? || e.Sent? {
      ReadyNeverUnresolved(host, request, s, e.index);
      assert op.path.value.reference != "" ==> op.path.value.reference in Dependencies(op);
    }
    hide Legal, After, Advance, Reached, SkipsAll;
  }

  // ---------- admission ----------

  /** A creation names a collection and itself and has an object; a change names its target and has an object; a
      removal names its target and has nothing; and nothing else is well formed. */
  lemma WellFormedOperationsAre(op: Operation, validId: string -> bool)
    ensures WellFormed(op, validId) <==>
      && op.path.Some?
      && (op.verb in {Post, Put, Patch, Delete})
      && (op.verb == Post <==> op.path.value.id == "" && op.path.value.reference == "")
      && (if op.verb == Post then validId(op.bulkId) else op.bulkId == "")
      && (if op.verb == Delete then op.data == Payload.Absent else op.data.Body?)
  {
  }

  lemma BoundedRequestsAre(request: Request)
    ensures Bounded(request) <==>
      1 <= |request.operations| <= 100 && !(request.failOnErrors < 0) && !(request.failOnErrors > 100)
  {
  }
}
