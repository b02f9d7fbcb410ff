/** The multi-pass bulk executor: requests, the run of one request as a trace of events,
    and the imperative scheduler proved to produce exactly that trace. */
module BulkExecutor {
  import opened Values
  import opened BulkReferences

  const MAXIMUM_BULK_OPERATIONS := 100

  datatype Verb = Post | Put | Patch | Delete | Unsupported
  datatype Path = Path(collection: string, id: string, reference: string)
  datatype Payload = Absent | NotAnObject | Body(document: Document)
  datatype Operation = Operation(verb: Verb, bulkId: string, path: Option<Path>, version: string, data: Payload)
  datatype Request = Request(operations: seq<Operation>, failOnErrors: int)

  datatype Failure = Failure(status: int, scimType: string, detail: string)
  datatype StoreError = Protocol(failure: Failure) | NotFound | Conflict | Tombstoned | Precondition | Other

  /** One call handed to the create, replace, patch or delete path, after resolution. */
  datatype Call = Call(verb: Verb, collection: string, id: string, version: string, data: Option<Value>)
  datatype Outcome = Stored(id: string, tag: string) | Rejected(error: StoreError)

  /** Everything outside the executor. The store may answer each call in any way that
      depends on all calls made so far. */
  datatype Host = Host(
    collections: set<string>,
    locate: (string, string) -> string,
    store: seq<Call> -> Outcome)

  /** One element of the response. */
  datatype Entry = Entry(
    verb: Verb, bulkId: string, location: string, version: string, status: int, error: Option<Failure>)

  // ---------- admission ----------

  predicate WellFormed(op: Operation, validId: string -> bool) {
    && op.path.Some?
    && match op.verb
       case Post => op.path.value.id == "" && op.path.value.reference == "" && validId(op.bulkId) && op.data.Body?
       case Put => (op.path.value.id != "" || op.path.value.reference != "") && op.data.Body? && op.bulkId == ""
       case Patch => (op.path.value.id != "" || op.path.value.reference != "") && op.data.Body? && op.bulkId == ""
       case Delete => (op.path.value.id != "" || op.path.value.reference != "") && op.data.Absent? && op.bulkId == ""
       case Unsupported => false
  }

  predicate Bounded(request: Request) {
    && 0 < |request.operations| <= MAXIMUM_BULK_OPERATIONS
    && 0 <= request.failOnErrors <= MAXIMUM_BULK_OPERATIONS
  }

  /** No two operations declare the same bulkId. */
  ghost predicate UniqueIds(ops: seq<Operation>) {
    forall i, j | 0 <= i < j < |ops| && ops[i].bulkId != "" :: ops[i].bulkId != ops[j].bulkId
  }

  /** Decoding accepts exactly the bounded requests whose operations are well formed one by
      one and whose bulkIds are pairwise different. */
  method CheckRequest(request: Request, validId: string -> bool) returns (ok: bool)
    requires !validId("")
    ensures ok <==>
      && Bounded(request)
      && UniqueIds(request.operations)
      && forall i | 0 <= i < |request.operations| :: WellFormed(request.operations[i], validId)
  {
    var ops := request.operations;
    if !Bounded(request) {
      return false;
    }
    var seen: set<string> := {};
    for n := 0 to |ops|
      invariant forall i | 0 <= i < n && ops[i].verb.Post? :: validId(ops[i].bulkId) && ops[i].bulkId in seen
      invariant forall id | id in seen :: exists i :: 0 <= i < n && ops[i].verb.Post? && ops[i].bulkId == id
      invariant forall i, j | 0 <= i < j < n && ops[i].verb.Post? && ops[j].verb.Post? :: ops[i].bulkId != ops[j].bulkId
    {
      if ops[n].verb.Post? {
        if !validId(ops[n].bulkId) || ops[n].bulkId in seen {
          return false;
        }
        seen := seen + {ops[n].bulkId};
      }
    }
    for n := 0 to |ops|
      invariant forall i | 0 <= i < n :: WellFormed(ops[i], validId)
    {
      if !WellFormed(ops[n], validId) {
        return false;
      }
    }
    return true;
  }

  // ---------- dependencies ----------

  function Dependencies(op: Operation): set<string> {
    (if op.path.Some? && op.path.value.reference != "" then {op.path.value.reference} else {})
    + (if op.data.Body? then References(Object(op.data.document)) else {})
  }

  function Declared(ops: seq<Operation>): set<string> {
    set i | 0 <= i < |ops| && ops[i].bulkId != "" :: ops[i].bulkId
  }

  // ---------- one operation ----------

  datatype Attempt = Ready(call: Call) | Refuse(failure: Failure)

  /** Path, collection and data checks that come before the store is called. */
  function Prepare(host: Host, op: Operation, known: map<string, Reference>): Attempt {
    if op.path.None? then Refuse(Failure(500, "", "SCIM storage operation failed"))
    else if op.path.value.reference != "" && op.path.value.reference !in known then
      Refuse(Failure(400, "invalidValue", "Bulk reference is unresolved"))
    else if op.path.value.collection !in host.collections then
      Refuse(Failure(400, "invalidPath", "Bulk collection is unsupported"))
    else
      var data := if op.data.Body? then Resolve(Object(op.data.document), "", known) else Some(Null);
      if data.None? then Refuse(Failure(400, "invalidValue", "Bulk data reference is unresolved"))
      else if op.verb.Unsupported? then Refuse(Failure(400, "invalidValue", "Bulk method is unsupported"))
      else Ready(Call(op.verb, op.path.value.collection, Target(op, known), op.version,
                      if op.data.Body? then data else None))
  }

  function Target(op: Operation, known: map<string, Reference>): string
    requires op.path.Some?
  {
    var path := op.path.value;
    if path.reference != "" && path.reference in known then known[path.reference].id else path.id
  }

  function Location(host: Host, op: Operation, known: map<string, Reference>): string {
    if op.path.None? then ""
    else
      var id := Target(op, known);
      if op.path.value.collection !in host.collections || id == "" then ""
      else host.locate(op.path.value.collection, id)
  }

  function SafeFailure(error: StoreError): Failure {
    match error
    case Protocol(failure) => failure
    case NotFound => Failure(404, "", "SCIM resource was not found")
    case Conflict => Failure(409, "uniqueness", "SCIM resource conflicts with existing state")
    case Tombstoned => Failure(409, "uniqueness", "SCIM resource conflicts with existing state")
    case Precondition => Failure(412, "", "SCIM resource precondition failed")
    case Other => Failure(500, "", "SCIM storage operation failed")
  }

  predicate OneLine(text: string) {
    forall k | 0 <= k < |text| :: text[k] != '\0' && text[k] != '\r' && text[k] != '\n'
  }

  /** Only well-formed error bodies leave the server. */
  function Presentable(failure: Failure): Failure {
    if failure.status < 400 || failure.status > 599 || failure.detail == ""
       || !OneLine(failure.detail)
    then Failure(500, "", "SCIM operation failed")
    else failure
  }

  function FailureEntry(host: Host, op: Operation, failure: Failure, known: map<string, Reference>): Entry {
    var shown := Presentable(failure);
    Entry(op.verb, op.bulkId, Location(host, op, known), "", shown.status, Some(shown))
  }

  function SuccessEntry(host: Host, op: Operation, call: Call, id: string, tag: string): Entry {
    match call.verb
    case Post => Entry(op.verb, op.bulkId, host.locate(call.collection, id), tag, 201, None)
    case Delete => Entry(op.verb, op.bulkId, host.locate(call.collection, call.id), "", 204, None)
    case _ => Entry(op.verb, op.bulkId, host.locate(call.collection, id), tag, 200, None)
  }

  const BLOCKED := Failure(400, "invalidValue", "Bulk dependency is unknown or failed")
  const CYCLE := Failure(409, "invalidValue", "Bulk dependency cycle is unresolved")

  // ---------- traces ----------

  /** How one operation was settled. */
  datatype Event =
    | Sent(index: nat, call: Call, outcome: Outcome)
    | Refused(index: nat, failure: Failure)
    | Blocked(index: nat)
    | Cyclic(index: nat)

  datatype State = State(
    references: map<string, Reference>,
    failed: set<string>,
    failures: nat,
    entries: map<nat, Entry>,
    calls: seq<Call>,
    cursor: nat)

  const START := State(map[], {}, 0, map[], [], 0)

  function Fail(host: Host, ops: seq<Operation>, s: State, index: nat, failure: Failure): State
    requires index < |ops|
  {
    s.(failures := s.failures + 1,
       failed := if ops[index].bulkId != "" then s.failed + {ops[index].bulkId} else s.failed,
       entries := s.entries[index := FailureEntry(host, ops[index], failure, s.references)],
       cursor := index + 1)
  }

  /** The executor's variables after one more operation is settled. */
  function Advance(host: Host, ops: seq<Operation>, s: State, e: Event): State
    requires e.index < |ops|
  {
    var op := ops[e.index];
    match e
    case Sent(index, call, Stored(id, tag)) =>
      var entry := SuccessEntry(host, op, call, id, tag);
      s.(references := if op.bulkId == "" then s.references
                       else s.references[op.bulkId := if call.verb.Post? then Reference(id, entry.location)
                                                      else Reference("", "")],
         entries := s.entries[index := entry], calls := s.calls + [call], cursor := index + 1)
    case Sent(index, call, Rejected(error)) =>
      Fail(host, ops, s, index, SafeFailure(error)).(calls := s.calls + [call])
    case Refused(index, failure) => Fail(host, ops, s, index, failure)
    case Blocked(index) => Fail(host, ops, s, index, BLOCKED)
    case Cyclic(index) =>
      s.(entries := s.entries[index := FailureEntry(host, op, CYCLE, s.references)])
  }

  datatype Standing = Runnable | Barred | Waiting

  function StandingOf(ops: seq<Operation>, s: State, index: nat): Standing
    requires index < |ops|
  {
    var needs := Dependencies(ops[index]);
    if exists d | d in needs :: d !in Declared(ops) || d in s.failed then Barred
    else if needs <= s.references.Keys then Runnable
    else Waiting
  }

  /** A pass walks past this operation. */
  predicate Skips(ops: seq<Operation>, s: State, index: nat)
    requires index < |ops|
  {
    index in s.entries || StandingOf(ops, s, index).Waiting?
  }

  predicate SettledUpTo(s: State, index: nat) {
    forall j: nat | j < index :: j in s.entries
  }

  predicate SkipsAll(ops: seq<Operation>, s: State, from: nat, to: nat)
    requires to <= |ops|
  {
    forall j | from <= j < to :: Skips(ops, s, j)
  }

  /** A pass has walked from the last settled position to this one without finding work. */
  predicate Reached(ops: seq<Operation>, s: State, index: nat)
    requires index <= |ops|
  {
    if s.cursor <= index then SkipsAll(ops, s, s.cursor, index)
    else SkipsAll(ops, s, s.cursor, |ops|) && SkipsAll(ops, s, 0, index)
  }

  predicate Stopped(request: Request, s: State) {
    request.failOnErrors > 0 && s.failures >= request.failOnErrors
  }

  /** e is the next thing the executor does in state s: passes go round in request order,
      and only a whole pass without progress leads to cycle reports. */
  predicate Allowed(host: Host, request: Request, s: State, e: Event) {
    var ops := request.operations;
    && e.index < |ops|
    && e.index !in s.entries
    && !Stopped(request, s)
    && (e.Cyclic? ==> SkipsAll(ops, s, 0, |ops|) && SettledUpTo(s, e.index))
    && (!e.Cyclic? ==> Reached(ops, s, e.index))
    && match e
       case Blocked(index) => StandingOf(ops, s, index).Barred?
       case Cyclic(index) => true
       case Refused(index, failure) =>
         StandingOf(ops, s, index).Runnable? && Prepare(host, ops[index], s.references) == Refuse(failure)
       case Sent(index, call, outcome) =>
         && StandingOf(ops, s, index).Runnable?
         && Prepare(host, ops[index], s.references) == Ready(call)
         && outcome == host.store(s.calls + [call])
  }

  ghost predicate Legal(host: Host, request: Request, trace: seq<Event>)
    decreases |trace|, 0
  {
    trace == [] ||
    (var before := trace[..|trace| - 1];
     Legal(host, request, before) && Allowed(host, request, After(host, request, before), trace[|trace| - 1]))
  }

  ghost function After(host: Host, request: Request, trace: seq<Event>): State
    requires Legal(host, request, trace)
    decreases |trace|, 1
  {
    if trace == [] then START
    else Advance(host, request.operations, After(host, request, trace[..|trace| - 1]), trace[|trace| - 1])
  }

  ghost predicate Finished(request: Request, s: State) {
    Stopped(request, s) || forall i | 0 <= i < |request.operations| :: i in s.entries
  }

  /** The settled entries from position n on, in request order. */
  function Collected(s: State, count: nat, n: nat): seq<Entry>
    requires n <= count
    decreases count - n
  {
    if n == count then []
    else (if n in s.entries then [s.entries[n]] else []) + Collected(s, count, n + 1)
  }

  // ---------- the executor ----------

  /** The inner dependency check. The order in which a map is walked does not matter. */
  method Classify(ops: seq<Operation>, declared: set<string>, s: State, index: nat)
    returns (blocked: bool, ready: bool)
    requires index < |ops| && declared == Declared(ops)
    ensures blocked <==> StandingOf(ops, s, index).Barred?
    ensures !blocked ==> (ready <==> StandingOf(ops, s, index).Runnable?)
  {
    var needs := Dependencies(ops[index]);
    var rest := needs;
    blocked, ready := false, true;
    while rest != {}
      invariant rest <= needs
      invariant !blocked
      invariant forall d | d in needs - rest :: d in declared && d !in s.failed
      invariant ready <==> needs - rest <= s.references.Keys
      decreases rest
    {
      var d :| d in rest;
      rest := rest - {d};
      if d !in declared || d in s.failed {
        return true, ready;
      }
      assert needs - rest == needs - (rest + {d}) + {d};
      if d !in s.references {
        ready := false;
      }
    }
    assert needs - rest == needs;
  }

  /** The operation positions of a request of n operations. */
  ghost function Positions(n: nat): (all: set<nat>)
    ensures forall i: nat :: i in all <==> i < n
    ensures |all| == n
  {
    if n == 0 then {} else Positions(n - 1) + {n - 1}
  }

  lemma SettledCount(s: State, n: nat)
    requires forall i | i in s.entries :: i < n
    ensures |s.entries| <= n
    ensures |s.entries| == n <==> forall i: nat | i < n :: i in s.entries
  {
    assert s.entries.Keys <= Positions(n);
    SubsetSize(s.entries.Keys, Positions(n));
    assert |s.entries.Keys| == |s.entries|;
  }

  lemma SubsetSize<T>(a: set<T>, b: set<T>)
    requires a <= b
    ensures |a| <= |b|
    ensures |a| == |b| <==> a == b
  {
    assert b == a + (b - a);
  }

  lemma Extend(host: Host, request: Request, trace: seq<Event>, e: Event)
    requires Legal(host, request, trace)
    requires Allowed(host, request, After(host, request, trace), e)
    ensures Legal(host, request, trace + [e])
    ensures After(host, request, trace + [e])
         == Advance(host, request.operations, After(host, request, trace), e)
  {
    assert (trace + [e])[..|trace|] == trace;
  }

  /** The loop variables agree with the trace so far and the budget is not used up. */
  ghost predicate Tracks(host: Host, request: Request, trace: seq<Event>, s: State, remaining: int) {
    && Legal(host, request, trace)
    && s == After(host, request, trace)
    && !Stopped(request, s)
    && (forall i | i in s.entries :: i < |request.operations|)
    && remaining == |request.operations| - |s.entries|
    && s.cursor <= |request.operations|
  }

  lemma Settle(host: Host, request: Request, trace: seq<Event>, s: State, remaining: int, e: Event)
    requires Tracks(host, request, trace, s, remaining)
    requires Allowed(host, request, s, e)
    ensures var s' := Advance(host, request.operations, s, e);
      && Legal(host, request, trace + [e])
      && s' == After(host, request, trace + [e])
      && (!Stopped(request, s') ==> Tracks(host, request, trace + [e], s', remaining - 1))
      && s'.entries.Keys == s.entries.Keys + {e.index}
      && s'.cursor == (if e.Cyclic? then s.cursor else e.index + 1)
  {
    Extend(host, request, trace, e);
    AdvanceSettles(host, request.operations, s, e);
    hide Prepare, StandingOf, Skips, SkipsAll, Reached, Advance;
  }

  lemma AdvanceSettles(host: Host, ops: seq<Operation>, s: State, e: Event)
    requires e.index < |ops|
    ensures var s' := Advance(host, ops, s, e);
      && s'.entries.Keys == s.entries.Keys + {e.index}
      && (e.index !in s.entries ==> |s'.entries| == |s.entries| + 1)
      && s'.cursor == (if e.Cyclic? then s.cursor else e.index + 1)
  {
    hide FailureEntry, SuccessEntry;
    var s' := Advance(host, ops, s, e);
    assert s'.entries == s.entries[e.index := s'.entries[e.index]];
    OneMoreKey(s.entries, e.index, s'.entries[e.index]);
  }

  lemma OneMoreKey<T>(m: map<nat, T>, key: nat, value: T)
    ensures m[key := value].Keys == m.Keys + {key}
    ensures key !in m ==> |m[key := value]| == |m| + 1
  {
  }

  lemma WalkPast(ops: seq<Operation>, s: State, index: nat)
    requires index < |ops| && Skips(ops, s, index) && Reached(ops, s, index)
    ensures Reached(ops, s, index + 1)
    ensures SkipsAll(ops, s, 0, index) ==> SkipsAll(ops, s, 0, index + 1)
  {
  }

  /** The loop body of a pass: settle the operation at this position unless it has to wait. */
  method Visit(host: Host, request: Request, declared: set<string>, s: State, index: nat,
               ghost trace: seq<Event>, ghost remaining: int)
    returns (settled: bool, next: State, ghost longer: seq<Event>)
    requires index < |request.operations| && declared == Declared(request.operations)
    requires Tracks(host, request, trace, s, remaining)
    requires Reached(request.operations, s, index)
    ensures !settled ==> next == s && longer == trace
    ensures !settled && SkipsAll(request.operations, s, 0, index) ==> SkipsAll(request.operations, s, 0, index + 1)
    ensures Reached(request.operations, next, index + 1)
    ensures settled ==>
      && Legal(host, request, longer)
      && next == After(host, request, longer)
      && next.cursor == index + 1
      && (!Stopped(request, next) ==> Tracks(host, request, longer, next, remaining - 1))
  {
    settled, next, longer := false, s, trace;
    var ops := request.operations;
    if index in s.entries {
      WalkPast(ops, s, index);
      return;
    }
    var blocked, ready := Classify(ops, declared, s, index);
    if !ready && !blocked {
      WalkPast(ops, s, index);
      return;
    }
    var e: Event;
    if blocked {
      e := Blocked(index);
    } else {
      e := match Prepare(host, ops[index], s.references)
           case Refuse(failure) => Refused(index, failure)
           case Ready(call) => Sent(index, call, host.store(s.calls + [call]));
    }
    Settle(host, request, trace, s, remaining, e);
    settled, next, longer := true, Advance(host, ops, s, e), trace + [e];
  }

  lemma SettledOneMore(s: State, index: nat)
    requires SettledUpTo(s, index) && index in s.entries
    ensures SettledUpTo(s, index + 1)
  {
  }

  lemma StillSkips(host: Host, ops: seq<Operation>, s: State, e: Event)
    requires e.Cyclic? && e.index < |ops|
    requires SkipsAll(ops, s, 0, |ops|)
    requires SettledUpTo(s, e.index)
    ensures SkipsAll(ops, Advance(host, ops, s, e), 0, |ops|)
    ensures SettledUpTo(Advance(host, ops, s, e), e.index + 1)
  {
    forall j | 0 <= j < |ops|
      ensures Skips(ops, Advance(host, ops, s, e), j)
    {
      assert Skips(ops, s, j);
    }
  }

  /** After a pass without progress: whatever is left waits on itself. */
  method ReportCycles(host: Host, request: Request, s: State, ghost trace: seq<Event>, ghost remaining: int)
    returns (last: State, ghost longer: seq<Event>)
    requires Tracks(host, request, trace, s, remaining)
    requires SkipsAll(request.operations, s, 0, |request.operations|)
    ensures Tracks(host, request, longer, last, 0)
  {
    var ops := request.operations;
    var n := |ops|;
    last, longer := s, trace;
    ghost var left := remaining;
    for index := 0 to n
      invariant Tracks(host, request, longer, last, left)
      invariant SkipsAll(ops, last, 0, n)
      invariant SettledUpTo(last, index)
    {
      if index !in last.entries {
        var e := Cyclic(index);
        StillSkips(host, ops, last, e);
        Settle(host, request, longer, last, left, e);
        last, longer, left := Advance(host, ops, last, e), longer + [e], left - 1;
      } else {
        SettledOneMore(last, index);
      }
    }
    SettledCount(last, n);
  }

  /** Runs a request. The response is determined by the one complete run of that request:
      when all is settled it has an entry per operation, when the failure budget is used up
      it has the settled ones, in request order either way. */
  method Serve(host: Host, request: Request) returns (response: seq<Entry>, ghost trace: seq<Event>)
    ensures Legal(host, request, trace)
    ensures Finished(request, After(host, request, trace))
    ensures response == Collected(After(host, request, trace), |request.operations|, 0)
  {
    var ops := request.operations;
    var n := |ops|;
    var declared := Declared(ops);
    var s := START;
    trace := [];
    var remaining := n;
    while remaining > 0
      invariant Tracks(host, request, trace, s, remaining)
      invariant remaining > 0 ==> Reached(ops, s, 0)
      decreases remaining
    {
      var progress := false;
      ghost var before := remaining;
      for index := 0 to n
        invariant Tracks(host, request, trace, s, remaining)
        invariant if progress then remaining < before && s.cursor <= index else remaining == before
        invariant Reached(ops, s, index)
        invariant !progress ==> SkipsAll(ops, s, 0, index)
      {
        var settled;
        settled, s, trace := Visit(host, request, declared, s, index, trace, remaining);
        if settled {
          if Stopped(request, s) {
            return Collected(s, n, 0), trace;
          }
          remaining := remaining - 1;
          progress := true;
        }
      }
      if !progress {
        s, trace := ReportCycles(host, request, s, trace, remaining);
        remaining := 0;
      }
    }
    SettledCount(s, n);
    response := Collected(s, n, 0);
  }
}
