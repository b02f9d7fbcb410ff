/** What holds of every run of the bulk executor, for every request and every store. */
module BulkTheorems {
  import opened Values
  import opened BulkReferences
  import opened BulkExecutor

  predicate Succeeds(e: Event) {
    e.Sent? && e.outcome.Stored?
  }

  /** The failures that failOnErrors counts: all but cycle reports. */
  predicate Counts(e: Event) {
    e.Refused? || e.Blocked? || (e.Sent? && e.outcome.Rejected?)
  }

  /** The operation got past the dependency check. */
  predicate Runs(e: Event) {
    e.Sent? || e.Refused?
  }

  // ---------- prefixes of a run ----------

  lemma {:induction false} PrefixIsLegal(host: Host, request: Request, trace: seq<Event>, t: nat)
    requires Legal(host, request, trace) && t <= |trace|
    ensures Legal(host, request, trace[..t])
    ensures t < |trace| ==>
      && Legal(host, request, trace[..t + 1])
      && Allowed(host, request, After(host, request, trace[..t]), trace[t])
      && After(host, request, trace[..t + 1])
         == Advance(host, request.operations, After(host, request, trace[..t]), trace[t])
  {
    if t == |trace| {
      assert trace[..t] == trace;
    } else if t + 1 == |trace| {
      assert trace[..t + 1] == trace;
    } else {
      var before := trace[..|trace| - 1];
      PrefixIsLegal(host, request, before, t);
      assert before[..t] == trace[..t] && before[..t + 1] == trace[..t + 1];
    }
  }

  ghost predicate Settles(trace: seq<Event>, index: nat) {
    exists t | 0 <= t < |trace| :: trace[t].index == index
  }

  ghost predicate SucceedsFor(ops: seq<Operation>, trace: seq<Event>, name: string) {
    exists t | 0 <= t < |trace| :: Succeeds(trace[t]) && trace[t].index < |ops| && ops[trace[t].index].bulkId == name
  }

  ghost predicate FailsFor(ops: seq<Operation>, trace: seq<Event>, name: string) {
    exists t | 0 <= t < |trace| :: Counts(trace[t]) && trace[t].index < |ops| && ops[trace[t].index].bulkId == name
  }

  lemma AdvanceReflects(host: Host, ops: seq<Operation>, s: State, e: Event)
    requires e.index < |ops|
    ensures var s' := Advance(host, ops, s, e);
      && (forall i: nat :: i in s'.entries <==> i in s.entries || i == e.index)
      && (forall d :: d in s'.references <==> d in s.references || (Succeeds(e) && d != "" && ops[e.index].bulkId == d))
      && (forall d :: d in s'.failed <==> d in s.failed || (Counts(e) && d != "" && ops[e.index].bulkId == d))
      && s'.failures == s.failures + (if Counts(e) then 1 else 0)
      && s'.cursor == (if e.Cyclic? then s.cursor else e.index + 1)
  {
  }

  lemma SettlesOneMore(ops: seq<Operation>, before: seq<Event>, e: Event)
    requires e.index < |ops|
    ensures forall i: nat :: Settles(before + [e], i) <==> Settles(before, i) || i == e.index
    ensures forall d :: SucceedsFor(ops, before + [e], d) <==>
      SucceedsFor(ops, before, d) || (Succeeds(e) && ops[e.index].bulkId == d)
    ensures forall d :: FailsFor(ops, before + [e], d) <==>
      FailsFor(ops, before, d) || (Counts(e) && ops[e.index].bulkId == d)
  {
    var trace := before + [e];
    assert trace[|before|] == e;
    assert forall t | 0 <= t < |before| :: before[t] == trace[t];
    forall i: nat
      ensures Settles(trace, i) <==> Settles(before, i) || i == e.index
    {
      if t :| 0 <= t < |before| && before[t].index == i { assert trace[t].index == i; }
    }
    forall d
      ensures SucceedsFor(ops, trace, d) <==> SucceedsFor(ops, before, d) || (Succeeds(e) && ops[e.index].bulkId == d)
    {
      if t :| 0 <= t < |before| && Succeeds(before[t]) && before[t].index < |ops| && ops[before[t].index].bulkId == d {
        assert Succeeds(trace[t]);
      }
    }
    forall d
      ensures FailsFor(ops, trace, d) <==> FailsFor(ops, before, d) || (Counts(e) && ops[e.index].bulkId == d)
    {
      if t :| 0 <= t < |before| && Counts(before[t]) && before[t].index < |ops| && ops[before[t].index].bulkId == d {
        assert Counts(trace[t]);
      }
    }
  }

  ghost predicate Reflects(ops: seq<Operation>, s: State, trace: seq<Event>) {
    && (forall i: nat :: i in s.entries <==> Settles(trace, i))
    && (forall d :: d in s.references <==> d != "" && SucceedsFor(ops, trace, d))
    && (forall d :: d in s.failed <==> d != "" && FailsFor(ops, trace, d))
  }

  lemma ReflectsOneMore(host: Host, ops: seq<Operation>, s: State, before: seq<Event>, e: Event)
    requires e.index < |ops| && Reflects(ops, s, before)
    ensures Reflects(ops, Advance(host, ops, s, e), before + [e])
  {
    AdvanceReflects(host, ops, s, e);
    SettlesOneMore(ops, before, e);
    hide Advance, SucceedsFor, FailsFor, Settles;
  }

  /** The executor's maps say exactly what happened so far. */
  lemma {:induction false} StateReflectsTrace(host: Host, request: Request, trace: seq<Event>)
    requires Legal(host, request, trace)
    ensures Reflects(request.operations, After(host, request, trace), trace)
  {
    hide Advance, Prepare, StandingOf, Skips;
    if trace == [] {
    } else {
      var before, e := trace[..|trace| - 1], trace[|trace| - 1];
      assert trace == before + [e];
      StateReflectsTrace(host, request, before);
      ReflectsOneMore(host, request.operations, After(host, request, before), before, e);
    }
  }

  /** Each operation is settled at most once. */
  lemma SettledOnce(host: Host, request: Request, trace: seq<Event>, t: nat, u: nat)
    requires Legal(host, request, trace) && t < u < |trace|
    ensures trace[t].index != trace[u].index
  {
    PrefixIsLegal(host, request, trace, u);
    StateReflectsTrace(host, request, trace[..u]);
    assert trace[..u][t] == trace[t];
  }

  lemma SettledInRange(host: Host, request: Request, trace: seq<Event>, t: nat)
    requires Legal(host, request, trace) && t < |trace|
    ensures trace[t].index < |request.operations|
  {
    PrefixIsLegal(host, request, trace, t);
  }

  // ---------- execution order ----------

  /** An operation is attempted only after everything it refers to has succeeded. */
  lemma DependenciesSucceedFirst(host: Host, request: Request, trace: seq<Event>, t: nat, name: string) returns (u: nat)
    requires Legal(host, request, trace) && t < |trace| && Runs(trace[t])
    requires trace[t].index < |request.operations|
    requires name in Dependencies(request.operations[trace[t].index])
    ensures u < t && Succeeds(trace[u]) && trace[u].index < |request.operations|
    ensures request.operations[trace[u].index].bulkId == name != ""
  {
    PrefixIsLegal(host, request, trace, t);
    StateReflectsTrace(host, request, trace[..t]);
    hide Advance, Prepare, Skips, SkipsAll, Legal;
    var ops := request.operations;
    var past := trace[..t];
    u :| 0 <= u < |past| && Succeeds(past[u]) && past[u].index < |ops| && ops[past[u].index].bulkId == name;
  }

  /** What the dependency check lets through never fails as unresolved: only an unknown
      collection, a bad path or an unsupported method can still be refused. */
  lemma ReadyNeverUnresolved(host: Host, request: Request, s: State, index: nat)
    requires index < |request.operations|
    requires StandingOf(request.operations, s, index).Runnable?
    ensures var op := request.operations[index];
      Prepare(host, op, s.references).Ready? <==>
        op.path.Some? && op.path.value.collection in host.collections && !op.verb.Unsupported?
  {
    var op := request.operations[index];
    if op.data.Body? {
      ResolvesExactlyWhenKnown(Object(op.data.document), "", s.references);
    }
  }

  /** Identifiers and locations the server hands out do not look like references. */
  ghost predicate PlainHost(host: Host) {
    && (forall calls :: host.store(calls).Stored? ==> !IsReference(host.store(calls).id))
    && (forall collection, id :: !IsReference(host.locate(collection, id)))
  }

  lemma {:induction false} KnownReferencesArePlain(host: Host, request: Request, trace: seq<Event>)
    requires Legal(host, request, trace) && PlainHost(host)
    ensures Plain(After(host, request, trace).references)
  {
    if trace != [] {
      KnownReferencesArePlain(host, request, trace[..|trace| - 1]);
    }
  }

  /** What a bulkId stands for is the outcome of an operation that declared it. */
  lemma {:induction false} ReferencesAreOutcomes(host: Host, request: Request, trace: seq<Event>, name: string)
    returns (u: nat)
    requires Legal(host, request, trace) && name in After(host, request, trace).references
    ensures u < |trace| && Succeeds(trace[u]) && trace[u].index < |request.operations|
    ensures request.operations[trace[u].index].bulkId == name
    ensures After(host, request, trace).references[name] ==
      if trace[u].call.verb.Post?
      then Reference(trace[u].outcome.id, host.locate(trace[u].call.collection, trace[u].outcome.id))
      else Reference("", "")
  {
    hide Allowed;
    var before, last := trace[..|trace| - 1], trace[|trace| - 1];
    PrefixIsLegal(host, request, trace, |trace| - 1);
    if Succeeds(last) && request.operations[last.index].bulkId == name && name != "" {
      u := |trace| - 1;
    } else {
      u := ReferencesAreOutcomes(host, request, before, name);
    }
  }

  /** No reference ever reaches the store, neither in the data nor as the target of a path; data
      without references arrives unchanged, and so does a target that is not a reference. */
  lemma StoreSeesNoReference(host: Host, request: Request, trace: seq<Event>, t: nat)
    requires Legal(host, request, trace) && t < |trace| && trace[t].Sent?
    requires trace[t].index < |request.operations|
    ensures var call, op := trace[t].call, request.operations[trace[t].index];
      && (call.data.Some? <==> op.data.Body?)
      && (op.data.Body? && PlainHost(host) ==> References(call.data.value) == {})
      && (op.data.Body? && References(Object(op.data.document)) == {} ==> call.data == Some(Object(op.data.document)))
      && op.path.Some?
      && (op.path.value.reference == "" ==> call.id == op.path.value.id)
      && (op.path.value.reference != "" && PlainHost(host) ==> !IsReference(call.id))
      && (op.path.value.reference != "" ==> exists u | 0 <= u < t ::
            && Succeeds(trace[u]) && trace[u].index < |request.operations|
            && request.operations[trace[u].index].bulkId == op.path.value.reference
            && call.id == if trace[u].call.verb.Post? then trace[u].outcome.id else "")
  {
    PrefixIsLegal(host, request, trace, t);
    var known := After(host, request, trace[..t]).references;
    var op := request.operations[trace[t].index];
    hide Legal, After, Advance, StandingOf, Reached, SkipsAll;
    if PlainHost(host) {
      KnownReferencesArePlain(host, request, trace[..t]);
    }
    hide PlainHost;
    if op.data.Body? {
      if Plain(known) {
        ResolvedIsReferenceFree(Object(op.data.document), "", known);
      }
      if References(Object(op.data.document)) == {} {
        ReferenceFreeIsUnchanged(Object(op.data.document), "", known);
      }
    }
    if op.path.value.reference != "" {
      var u := ReferencesAreOutcomes(host, request, trace[..t], op.path.value.reference);
      assert trace[..t][u] == trace[u];
    }
  }

  // ---------- cycles ----------

  predicate Edge(ops: seq<Operation>, i: nat, j: nat) {
    i < |ops| && j < |ops| && ops[j].bulkId != "" && ops[j].bulkId in Dependencies(ops[i])
  }

  ghost predicate Walk(ops: seq<Operation>, path: seq<nat>) {
    && |path| > 0
    && (forall k | 0 <= k < |path| :: path[k] < |ops|)
    && forall k | 0 <= k < |path| - 1 :: Edge(ops, path[k], path[k + 1])
  }

  ghost predicate Repeats(path: seq<nat>) {
    exists a, b | 0 <= a < b < |path| :: path[a] == path[b]
  }

  /** Some dependency chain from here comes back to an operation it already visited. */
  ghost predicate LeadsToCycle(ops: seq<Operation>, i: nat) {
    exists path :: Walk(ops, path) && path[0] == i && Repeats(path)
  }

  lemma {:induction false} WalkGoesBack(host: Host, request: Request, trace: seq<Event>, t: nat, path: seq<nat>, k: nat)
    returns (u: nat)
    requires Legal(host, request, trace) && UniqueIds(request.operations)
    requires t < |trace| && Runs(trace[t])
    requires Walk(request.operations, path) && path[0] == trace[t].index && k < |path|
    ensures u + k <= t && Runs(trace[u]) && trace[u].index == path[k]
    decreases k
  {
    if k == 0 {
      u := t;
    } else {
      var v := WalkGoesBack(host, request, trace, t, path, k - 1);
      assert Edge(request.operations, path[k - 1], path[k]);
      u := DependenciesSucceedFirst(host, request, trace, v, request.operations[path[k]].bulkId);
    }
  }

  /** No operation on a cycle, or depending on one through any chain, is ever attempted. */
  lemma CyclesNeverRun(host: Host, request: Request, trace: seq<Event>, t: nat)
    requires Legal(host, request, trace) && UniqueIds(request.operations)
    requires t < |trace| && Runs(trace[t])
    ensures !LeadsToCycle(request.operations, trace[t].index)
  {
    hide Advance, Prepare, StandingOf, Skips, Allowed;
    var ops := request.operations;
    if LeadsToCycle(ops, trace[t].index) {
      var path :| Walk(ops, path) && path[0] == trace[t].index && Repeats(path);
      var a, b :| 0 <= a < b < |path| && path[a] == path[b];
      var u := WalkGoesBack(host, request, trace, t, path, a);
      var rest := path[a..];
      assert Walk(ops, rest) by {
        forall k | 0 <= k < |rest| - 1
          ensures Edge(ops, rest[k], rest[k + 1])
        {
          assert Edge(ops, path[a + k], path[a + k + 1]);
        }
      }
      var v := WalkGoesBack(host, request, trace, u, rest, b - a);
      SettledOnce(host, request, trace, v, u);
    }
  }

  ghost function Visited(path: seq<nat>): set<nat> {
    set k | 0 <= k < |path| :: path[k]
  }

  lemma {:induction false} DistinctCount(path: seq<nat>)
    requires !Repeats(path)
    ensures |Visited(path)| == |path|
  {
    if path != [] {
      var init, last := path[..|path| - 1], path[|path| - 1];
      forall a, b | 0 <= a < b < |init|
        ensures init[a] != init[b]
      {
        assert path[a] != path[b];
      }
      DistinctCount(init);
      assert last !in Visited(init) by {
        forall k | 0 <= k < |init| ensures init[k] != last { assert path[k] != path[|init|]; }
      }
      assert Visited(path) == Visited(init) + {last} by {
        assert forall k | 0 <= k < |init| :: init[k] == path[k];
      }
    }
  }

  lemma Pigeonhole(path: seq<nat>, n: nat)
    requires forall k | 0 <= k < |path| :: path[k] < n
    requires |path| > n
    ensures Repeats(path)
  {
    if !Repeats(path) {
      DistinctCount(path);
      SubsetSize(Visited(path), Positions(n));
    }
  }

  lemma SettledNamesAreKnown(host: Host, request: Request, trace: seq<Event>, j: nat)
    requires Legal(host, request, trace)
    requires forall e | e in trace :: !e.Cyclic?
    requires j in After(host, request, trace).entries && j < |request.operations|
    requires request.operations[j].bulkId != ""
    ensures var s, name := After(host, request, trace), request.operations[j].bulkId;
      name in s.references || name in s.failed
  {
    StateReflectsTrace(host, request, trace);
    hide Legal, After;
    var t :| 0 <= t < |trace| && trace[t].index == j;
    assert trace[t] in trace;
    assert Succeeds(trace[t]) || Counts(trace[t]);
    var name := request.operations[j].bulkId;
    assert SucceedsFor(request.operations, trace, name) || FailsFor(request.operations, trace, name);
  }

  /** While nothing is reported as a cycle yet, an operation that has to wait waits for
      another one that is not settled either. */
  lemma WaitsForUnsettled(host: Host, request: Request, trace: seq<Event>, i: nat) returns (j: nat)
    requires Legal(host, request, trace)
    requires forall e | e in trace :: !e.Cyclic?
    requires i < |request.operations|
    requires StandingOf(request.operations, After(host, request, trace), i).Waiting?
    ensures Edge(request.operations, i, j) && j !in After(host, request, trace).entries
  {
    var ops, s := request.operations, After(host, request, trace);
    var d :| d in Dependencies(ops[i]) && d !in s.references && d in Declared(ops) && d !in s.failed;
    j :| 0 <= j < |ops| && ops[j].bulkId != "" && ops[j].bulkId == d;
    if j in s.entries {
      SettledNamesAreKnown(host, request, trace, j);
    }
  }

  lemma {:induction false} WaitingWalk(host: Host, request: Request, trace: seq<Event>, i: nat, length: nat)
    returns (path: seq<nat>)
    requires Legal(host, request, trace)
    requires forall e | e in trace :: !e.Cyclic?
    requires SkipsAll(request.operations, After(host, request, trace), 0, |request.operations|)
    requires i < |request.operations| && i !in After(host, request, trace).entries
    ensures Walk(request.operations, path) && path[0] == i && |path| == length + 1
    decreases length
  {
    path := [i];
    if length > 0 {
      assert Skips(request.operations, After(host, request, trace), i);
      var j := WaitsForUnsettled(host, request, trace, i);
      var rest := WaitingWalk(host, request, trace, j, length - 1);
      path := [i] + rest;
      forall k | 0 <= k < |path| - 1
        ensures Edge(request.operations, path[k], path[k + 1])
      {
        if k > 0 {
          assert Edge(request.operations, rest[k - 1], rest[k]);
        }
      }
    }
  }

  lemma {:induction false} UnsettledAtCycleReport(host: Host, request: Request, trace: seq<Event>, t: nat, i: nat)
    requires Legal(host, request, trace) && t < |trace| && trace[t].Cyclic?
    requires i < |request.operations|
    requires !Settles(trace[..t], i)
    ensures LeadsToCycle(request.operations, i)
    decreases t
  {
    PrefixIsLegal(host, request, trace, t);
    StateReflectsTrace(host, request, trace[..t]);
    hide Advance, Prepare, StandingOf, Skips;
    if u: nat :| u < t && trace[u].Cyclic? {
      forall v | 0 <= v < |trace[..u]|
        ensures trace[..u][v].index != i
      {
        assert trace[..u][v] == trace[..t][v];
      }
      UnsettledAtCycleReport(host, request, trace, u, i);
    } else {
      forall e | e in trace[..t]
        ensures !e.Cyclic?
      {
        var u :| 0 <= u < t && trace[..t][u] == e;
        assert trace[u] == e;
      }
      var path := WaitingWalk(host, request, trace[..t], i, |request.operations|);
      Pigeonhole(path, |request.operations|);
    }
  }

  /** The 409 cycle failure is reported only for operations whose chain leads into a cycle. */
  lemma CycleReportsAreTrue(host: Host, request: Request, trace: seq<Event>, t: nat)
    requires Legal(host, request, trace) && t < |trace| && trace[t].Cyclic?
    ensures LeadsToCycle(request.operations, trace[t].index)
  {
    PrefixIsLegal(host, request, trace, t);
    StateReflectsTrace(host, request, trace[..t]);
    UnsettledAtCycleReport(host, request, trace, t, trace[t].index);
  }

  /** Once cycles are reported nothing else happens any more. */
  lemma {:induction false} CyclesComeLast(host: Host, request: Request, trace: seq<Event>, t: nat, u: nat)
    requires Legal(host, request, trace) && t < |trace| && trace[t].Cyclic? && t <= u <= |trace|
    ensures u < |trace| ==> trace[u].Cyclic?
    ensures Legal(host, request, trace[..t]) && Legal(host, request, trace[..u])
    ensures SkipsAll(request.operations, After(host, request, trace[..u]), 0, |request.operations|)
    ensures After(host, request, trace[..u]).failed == After(host, request, trace[..t]).failed
    decreases u
  {
    PrefixIsLegal(host, request, trace, u);
    if u > t {
      CyclesComeLast(host, request, trace, t, u - 1);
      PrefixIsLegal(host, request, trace, u - 1);
      StillSkips(host, request.operations, After(host, request, trace[..u - 1]), trace[u - 1]);
    }
    if u < |trace| {
      assert Skips(request.operations, After(host, request, trace[..u]), trace[u].index);
    }
  }

  /** Every dependency is declared and none has failed. */
  predicate Unbarred(ops: seq<Operation>, failed: set<string>, i: nat)
    requires i < |ops|
  {
    forall d | d in Dependencies(ops[i]) :: d in Declared(ops) && d !in failed
  }

  lemma CycleReportIsUnbarred(host: Host, request: Request, trace: seq<Event>, t: nat)
    requires Legal(host, request, trace) && t < |trace| && trace[t].Cyclic?
    ensures trace[t].index < |request.operations|
    ensures Unbarred(request.operations, After(host, request, trace).failed, trace[t].index)
  {
    PrefixIsLegal(host, request, trace, t);
    CyclesComeLast(host, request, trace, t, t);
    CyclesComeLast(host, request, trace, t, |trace|);
    assert trace[..|trace|] == trace;
    hide Advance, Prepare, Legal;
    assert Skips(request.operations, After(host, request, trace[..t]), trace[t].index);
  }

  lemma BlockedIsBarred(host: Host, request: Request, trace: seq<Event>, t: nat)
    requires Legal(host, request, trace) && t < |trace| && trace[t].Blocked?
    ensures trace[t].index < |request.operations|
    ensures !Unbarred(request.operations, After(host, request, trace).failed, trace[t].index)
  {
    PrefixIsLegal(host, request, trace, t);
    var ops, s := request.operations, After(host, request, trace[..t]);
    var d :| d in Dependencies(ops[trace[t].index]) && (d !in Declared(ops) || d in s.failed);
    if d in s.failed {
      FailuresStay(host, request, trace, t, d);
    }
  }

  /** In a run that is not cut short, the cycle failure goes to exactly the operations that lead
      into a cycle and do not already fail for an unknown or failed dependency. */
  lemma CycleReportsExactly(host: Host, request: Request, trace: seq<Event>, i: nat)
    requires Legal(host, request, trace) && UniqueIds(request.operations)
    requires Finished(request, After(host, request, trace)) && !Stopped(request, After(host, request, trace))
    requires i < |request.operations|
    ensures Cyclic(i) in trace <==>
      LeadsToCycle(request.operations, i) && Unbarred(request.operations, After(host, request, trace).failed, i)
  {
    hide Advance, Prepare, StandingOf, Skips, Allowed, LeadsToCycle, Unbarred;
    StateReflectsTrace(host, request, trace);
    assert i in After(host, request, trace).entries;
    var t :| 0 <= t < |trace| && trace[t].index == i;
    if trace[t].Cyclic? {
      CycleReportsAreTrue(host, request, trace, t);
      CycleReportIsUnbarred(host, request, trace, t);
      assert trace[t] == Cyclic(i);
    } else {
      forall u | 0 <= u < |trace|
        ensures trace[u] != Cyclic(i)
      {
        if u != t {
          SettledOnce(host, request, trace, if u < t then u else t, if u < t then t else u);
        }
      }
      if Runs(trace[t]) {
        CyclesNeverRun(host, request, trace, t);
      } else {
        BlockedIsBarred(host, request, trace, t);
      }
    }
  }

  lemma FailuresStay(host: Host, request: Request, trace: seq<Event>, t: nat, name: string)
    requires Legal(host, request, trace) && t <= |trace| && Legal(host, request, trace[..t])
    requires name in After(host, request, trace[..t]).failed
    ensures name in After(host, request, trace).failed
  {
    StateReflectsTrace(host, request, trace[..t]);
    StateReflectsTrace(host, request, trace);
    var ops := request.operations;
    var u :| 0 <= u < t && Counts(trace[..t][u]) && trace[..t][u].index < |ops|
      && ops[trace[..t][u].index].bulkId == name;
    assert trace[u] == trace[..t][u];
  }

  /** A request without cycles never gets a cycle failure. */
  lemma AcyclicRequestsNeverReportCycles(host: Host, request: Request, trace: seq<Event>)
    requires Legal(host, request, trace)
    requires forall i: nat | i < |request.operations| :: !LeadsToCycle(request.operations, i)
    ensures forall e | e in trace :: !e.Cyclic?
  {
    forall e | e in trace
      ensures !e.Cyclic?
    {
      var t :| 0 <= t < |trace| && trace[t] == e;
      if e.Cyclic? {
        PrefixIsLegal(host, request, trace, t);
        CycleReportsAreTrue(host, request, trace, t);
      }
    }
  }

  // ---------- failure budget ----------

  function FailureCount(trace: seq<Event>): nat {
    if trace == [] then 0
    else FailureCount(trace[..|trace| - 1]) + if Counts(trace[|trace| - 1]) then 1 else 0
  }

  lemma {:induction false} FailuresAreCounted(host: Host, request: Request, trace: seq<Event>)
    requires Legal(host, request, trace)
    ensures After(host, request, trace).failures == FailureCount(trace)
  {
    if trace != [] {
      FailuresAreCounted(host, request, trace[..|trace| - 1]);
    }
  }

  /** With failOnErrors = k > 0 nothing happens after the k-th counted failure, and a run ends
      early only because of it. */
  lemma BudgetIsRespected(host: Host, request: Request, trace: seq<Event>, t: nat)
    requires Legal(host, request, trace) && t < |trace|
    ensures request.failOnErrors > 0 ==> FailureCount(trace[..t]) < request.failOnErrors
    ensures Stopped(request, After(host, request, trace)) <==>
      request.failOnErrors > 0 && FailureCount(trace) == request.failOnErrors
  {
    PrefixIsLegal(host, request, trace, t);
    FailuresAreCounted(host, request, trace[..t]);
    FailuresAreCounted(host, request, trace);
    var before := trace[..|trace| - 1];
    PrefixIsLegal(host, request, trace, |trace| - 1);
    FailuresAreCounted(host, request, before);
  }

  // ---------- one pass suffices for backward references ----------

  ghost predicate RefersBackward(ops: seq<Operation>) {
    forall i, d | 0 <= i < |ops| && d in Dependencies(ops[i]) && d in Declared(ops) ::
      exists j :: 0 <= j < i && ops[j].bulkId == d
  }

  /** When every declared reference points to an earlier entry, operations are settled in request
      order in a single pass. */
  lemma {:induction false} BackwardReferencesSettleInOrder(host: Host, request: Request, trace: seq<Event>, t: nat)
    requires Legal(host, request, trace) && RefersBackward(request.operations)
    requires t < |trace|
    ensures trace[t].index == t && !trace[t].Cyclic?
    decreases t
  {
    hide Prepare, StandingOf, Skips, SkipsAll, Reached, RefersBackward, Advance;
    var ops := request.operations;
    PrefixIsLegal(host, request, trace, t);
    StateReflectsTrace(host, request, trace[..t]);
    var s := After(host, request, trace[..t]);
    forall u: nat | u < t
      ensures trace[..t][u].index == u && !trace[..t][u].Cyclic?
    {
      BackwardReferencesSettleInOrder(host, request, trace, u);
    }
    assert s.cursor == t by {
      if t > 0 {
        PrefixIsLegal(host, request, trace, t - 1);
        BackwardReferencesSettleInOrder(host, request, trace, t - 1);
        AdvanceReflects(host, ops, After(host, request, trace[..t - 1]), trace[t - 1]);
      }
    }
    assert forall i: nat :: i in s.entries <==> i < t by {
      forall i: nat | i < t ensures Settles(trace[..t], i) { assert trace[..t][i].index == i; }
    }
    assert trace[t].index < |ops|;
    BackwardReferencesNeverWait(host, request, trace[..t], t);
    NextInOrder(host, request, s, trace[t], t);
  }

  lemma NextInOrder(host: Host, request: Request, s: State, e: Event, t: nat)
    requires Allowed(host, request, s, e) && s.cursor == t < |request.operations|
    requires forall i: nat :: i in s.entries <==> i < t
    requires !StandingOf(request.operations, s, t).Waiting?
    ensures e.index == t && !e.Cyclic?
  {
    hide Advance, Prepare, StandingOf;
    assert !Skips(request.operations, s, t);
  }

  lemma BackwardReferencesNeverWait(host: Host, request: Request, trace: seq<Event>, i: nat)
    requires Legal(host, request, trace) && RefersBackward(request.operations)
    requires forall e | e in trace :: !e.Cyclic?
    requires i < |request.operations|
    requires forall j: nat | j < i :: j in After(host, request, trace).entries
    ensures !StandingOf(request.operations, After(host, request, trace), i).Waiting?
  {
    var ops, s := request.operations, After(host, request, trace);
    forall d | d in Dependencies(ops[i]) && d in Declared(ops)
      ensures d in s.references || d in s.failed
    {
      var j :| 0 <= j < i && ops[j].bulkId == d;
      SettledNamesAreKnown(host, request, trace, j);
    }
    var needs := Dependencies(ops[i]);
    if !(exists d | d in needs :: d !in Declared(ops) || d in s.failed) {
      assert forall d | d in needs :: d in s.references;
    }
  }

  /** So such a request is served in one pass: nothing ever waits, and the run ends with the request
      or with the failure budget, whichever comes first. */
  lemma BackwardRequestsTakeOnePass(host: Host, request: Request, trace: seq<Event>)
    requires Legal(host, request, trace) && RefersBackward(request.operations)
    ensures forall t | 0 <= t < |trace| :: trace[t].index == t < |request.operations| && !trace[t].Cyclic?
    ensures forall t | 0 <= t < |trace| ::
      Legal(host, request, trace[..t]) && !StandingOf(request.operations, After(host, request, trace[..t]), t).Waiting?
    ensures var s := After(host, request, trace);
      Finished(request, s) <==> Stopped(request, s) || |trace| == |request.operations|
  {
    hide RefersBackward, StandingOf, Advance, Prepare, Skips, SkipsAll, Reached;
    forall t | 0 <= t < |trace|
      ensures trace[t].index == t < |request.operations| && !trace[t].Cyclic?
      ensures Legal(host, request, trace[..t])
      ensures !StandingOf(request.operations, After(host, request, trace[..t]), t).Waiting?
    {
      PrefixIsLegal(host, request, trace, t);
      BackwardReferencesSettleInOrder(host, request, trace, t);
      SettledSoFar(host, request, trace, t);
      IndexInRange(host, request, After(host, request, trace[..t]), trace[t]);
      BackwardReferencesNeverWait(host, request, trace[..t], t);
    }
    assert trace[..|trace|] == trace;
    SettledSoFar(host, request, trace, |trace|);
    var n, entries := |request.operations|, After(host, request, trace).entries;
    assert |trace| <= n by {
      if trace != [] {
        assert trace[|trace| - 1].index < n;
      }
    }
    if |trace| < n {
      assert |trace| !in entries;
    } else {
      assert forall i | 0 <= i < n :: i in entries;
    }
  }

  lemma IndexInRange(host: Host, request: Request, s: State, e: Event)
    requires Allowed(host, request, s, e)
    ensures e.index < |request.operations|
  {
    hide Advance, Prepare, StandingOf, SkipsAll, Skips, Reached;
  }

  lemma SettledSoFar(host: Host, request: Request, trace: seq<Event>, t: nat)
    requires Legal(host, request, trace) && RefersBackward(request.operations) && t <= |trace|
    requires Legal(host, request, trace[..t])
    ensures forall i: nat :: i in After(host, request, trace[..t]).entries <==> i < t
    ensures forall e | e in trace[..t] :: !e.Cyclic?
  {
    hide RefersBackward, Legal, After, Allowed;
    StateReflectsTrace(host, request, trace[..t]);
    forall u: nat | u < t
      ensures trace[..t][u].index == u && !trace[..t][u].Cyclic?
    {
      BackwardReferencesSettleInOrder(host, request, trace, u);
    }
    forall i: nat | i < t
      ensures Settles(trace[..t], i)
    {
      assert trace[..t][i].index == i;
    }
  }

  // ---------- the response ----------

  /** An entry of the response is written once, by the event that settles its operation. */
  lemma {:induction false} EntryIsFinal(host: Host, request: Request, trace: seq<Event>, t: nat)
    requires Legal(host, request, trace) && t < |trace|
    ensures Legal(host, request, trace[..t + 1])
    ensures var i := trace[t].index;
      && i in After(host, request, trace).entries
      && After(host, request, trace).entries[i] == After(host, request, trace[..t + 1]).entries[i]
      && (Succeeds(trace[t]) <==> After(host, request, trace).entries[i].error.None?)
      && (trace[t].Cyclic? ==> After(host, request, trace).entries[i].error == Some(CYCLE))
  {
    PrefixIsLegal(host, request, trace, t);
    if t + 1 == |trace| {
      assert trace[..t + 1] == trace;
      EntryOfEvent(host, request.operations, After(host, request, trace[..t]), trace[t]);
    } else {
      var before := trace[..|trace| - 1];
      EntryIsFinal(host, request, before, t);
      assert before[..t + 1] == trace[..t + 1];
      SettledOnce(host, request, trace, t, |trace| - 1);
      EntryOfEvent(host, request.operations, After(host, request, before), trace[|trace| - 1]);
    }
    hide Advance, Allowed;
  }

  lemma EntryOfEvent(host: Host, ops: seq<Operation>, s: State, e: Event)
    requires e.index < |ops|
    ensures var s' := Advance(host, ops, s, e);
      && e.index in s'.entries
      && (Succeeds(e) <==> s'.entries[e.index].error.None?)
      && (e.Cyclic? ==> s'.entries[e.index].error == Some(CYCLE))
      && forall i: nat | i != e.index && i in s.entries :: i in s'.entries && s'.entries[i] == s.entries[i]
  {
    CycleIsPresentable();
    hide Presentable;
  }

  lemma CycleIsPresentable()
    ensures Presentable(CYCLE) == CYCLE
  {
  }

  /** The positions the response reports. */
  function Reported(s: State, count: nat, n: nat): (positions: seq<nat>)
    requires n <= count
    decreases count - n
  {
    if n == count then []
    else (if n in s.entries then [n] else []) + Reported(s, count, n + 1)
  }

  /** They are exactly the settled positions, in request order. */
  lemma {:induction false} ReportedInOrder(s: State, count: nat, n: nat)
    requires n <= count
    ensures forall k | k in Reported(s, count, n) :: n <= k < count && k in s.entries
    ensures forall i: nat | n <= i < count && i in s.entries :: i in Reported(s, count, n)
    ensures Increasing(Reported(s, count, n))
    decreases count - n
  {
    if n < count {
      ReportedInOrder(s, count, n + 1);
      var rest := Reported(s, count, n + 1);
      if n in s.entries {
        assert Reported(s, count, n) == [n] + rest;
        assert forall k | 0 <= k < |rest| :: rest[k] in rest;
      } else {
        assert Reported(s, count, n) == rest;
      }
    }
  }

  predicate Increasing(positions: seq<nat>) {
    forall k, m | 0 <= k < m < |positions| :: positions[k] < positions[m]
  }

  function EntriesAt(s: State, positions: seq<nat>): seq<Entry>
    requires forall k | k in positions :: k in s.entries
  {
    seq(|positions|, k requires 0 <= k < |positions| => assert positions[k] in positions; s.entries[positions[k]])
  }

  /** The response lists the entries of exactly the settled operations in request order. */
  lemma {:induction false} ResponseKeepsOrder(s: State, count: nat, n: nat)
    requires n <= count
    ensures forall k | k in Reported(s, count, n) :: k in s.entries
    ensures Collected(s, count, n) == EntriesAt(s, Reported(s, count, n))
    decreases count - n
  {
    ReportedInOrder(s, count, n);
    if n < count {
      ResponseKeepsOrder(s, count, n + 1);
      var rest := Reported(s, count, n + 1);
      if n in s.entries {
        assert EntriesAt(s, [n] + rest) == [s.entries[n]] + EntriesAt(s, rest);
      } else {
        assert Reported(s, count, n) == rest;
        assert Collected(s, count, n) == Collected(s, count, n + 1);
      }
    }
  }

  // ---------- determinism ----------

  lemma NextIsUnique(host: Host, request: Request, s: State, e: Event, f: Event)
    requires Allowed(host, request, s, e) && Allowed(host, request, s, f)
    ensures e == f
  {
    var ops := request.operations;
    assert !e.Cyclic? ==> !Skips(ops, s, e.index);
    assert !f.Cyclic? ==> !Skips(ops, s, f.index);
  }

  /** A request and a store determine the run, and with it the response. */
  lemma {:induction false} RunIsUnique(host: Host, request: Request, trace: seq<Event>, other: seq<Event>)
    requires Legal(host, request, trace) && Finished(request, After(host, request, trace))
    requires Legal(host, request, other) && Finished(request, After(host, request, other))
    ensures trace == other
  {
    AgreeOnPrefix(host, request, trace, other, if |trace| <= |other| then |trace| else |other|);
    if |trace| < |other| {
      NothingAfterFinish(host, request, trace, other);
    } else if |other| < |trace| {
      NothingAfterFinish(host, request, other, trace);
    } else {
      assert trace[..|trace|] == trace && other[..|other|] == other;
    }
  }

  lemma {:induction false} AgreeOnPrefix(host: Host, request: Request, trace: seq<Event>, other: seq<Event>, t: nat)
    requires Legal(host, request, trace) && Legal(host, request, other)
    requires t <= |trace| && t <= |other|
    ensures trace[..t] == other[..t]
    decreases t
  {
    hide Allowed, Advance;
    if t > 0 {
      AgreeOnPrefix(host, request, trace, other, t - 1);
      PrefixIsLegal(host, request, trace, t - 1);
      PrefixIsLegal(host, request, other, t - 1);
      NextIsUnique(host, request, After(host, request, trace[..t - 1]), trace[t - 1], other[t - 1]);
      assert trace[..t] == trace[..t - 1] + [trace[t - 1]];
      assert other[..t] == other[..t - 1] + [other[t - 1]];
    }
  }

  lemma NothingAfterFinish(host: Host, request: Request, trace: seq<Event>, longer: seq<Event>)
    requires Legal(host, request, trace) && Finished(request, After(host, request, trace))
    requires Legal(host, request, longer)
    requires |trace| < |longer|
    ensures trace[..|trace|] != longer[..|trace|]
  {
    hide Advance, Prepare, StandingOf, Skips, SkipsAll, Reached, SettledUpTo;
    PrefixIsLegal(host, request, longer, |trace|);
    assert trace[..|trace|] == trace;
  }
}
