/** What a request alone says about its response: which operations fail whatever the store does, and
    when the failures of a response exceed the budget although the store accepts every call. */
module BulkForecast {
  import opened BulkExecutor
  import opened BulkTheorems
  import opened BulkBudget

  // ---------- operations that cannot succeed ----------

  predicate Undeclared(ops: seq<Operation>, i: nat) {
    i < |ops| && exists d | d in Dependencies(ops[i]) :: d !in Declared(ops)
  }

  /** Some dependency chain from here ends in a bulkId that no operation declares. */
  ghost predicate Hopeless(ops: seq<Operation>, i: nat) {
    exists path :: Walk(ops, path) && path[0] == i && Undeclared(ops, path[|path| - 1])
  }

  ghost function HopelessOnes(ops: seq<Operation>): set<nat> {
    set i | i in Positions(|ops|) && Hopeless(ops, i)
  }

  ghost function LeadingToCycles(ops: seq<Operation>): set<nat> {
    set i | i in Positions(|ops|) && LeadsToCycle(ops, i)
  }

  /** The store accepts every call, and every collection of the request is served. */
  ghost predicate Obliging(host: Host, request: Request) {
    && (forall calls :: host.store(calls).Stored?)
    && forall op | op in request.operations && op.path.Some? :: op.path.value.collection in host.collections
  }

  ghost predicate Admitted(request: Request, validId: string -> bool) {
    UniqueIds(request.operations) && forall op | op in request.operations :: WellFormed(op, validId)
  }

  lemma HopelessBehind(ops: seq<Operation>, i: nat, j: nat)
    requires Edge(ops, i, j) && Hopeless(ops, j)
    ensures Hopeless(ops, i)
  {
    hide Edge, Undeclared;
    var path :| Walk(ops, path) && path[0] == j && Undeclared(ops, path[|path| - 1]);
    var longer := [i] + path;
    forall k | 0 <= k < |longer| - 1
      ensures Edge(ops, longer[k], longer[k + 1])
    {
      if k > 0 {
        assert longer[k] == path[k - 1] && longer[k + 1] == path[k];
      }
    }
    assert i < |ops| by { assert Edge(ops, i, j); EdgeInRange(ops, i, j); }
    assert Walk(ops, longer) && longer[0] == i && longer[|longer| - 1] == path[|path| - 1];
  }

  lemma EdgeInRange(ops: seq<Operation>, i: nat, j: nat)
    requires Edge(ops, i, j)
    ensures i < |ops| && j < |ops|
  {
  }

  lemma UndeclaredIsHopeless(ops: seq<Operation>, i: nat)
    requires Undeclared(ops, i)
    ensures Hopeless(ops, i)
  {
    assert Walk(ops, [i]) && [i][0] == i && [i][|[i]| - 1] == i;
  }

  /** The operation depends on an undeclared name, or on a hopeless operation. */
  lemma HopelessNext(ops: seq<Operation>, i: nat)
    requires Hopeless(ops, i)
    ensures i < |ops| && (Undeclared(ops, i) || exists j :: Edge(ops, i, j) && Hopeless(ops, j))
  {
    hide Edge, Undeclared;
    var path :| Walk(ops, path) && path[0] == i && Undeclared(ops, path[|path| - 1]);
    if |path| > 1 {
      var rest := path[1..];
      assert Edge(ops, path[0], path[1]);
      forall k | 0 <= k < |rest| - 1
        ensures Edge(ops, rest[k], rest[k + 1])
      {
        assert rest[k] == path[k + 1] && rest[k + 1] == path[k + 2];
      }
      assert Walk(ops, rest) && rest[0] == path[1] && rest[|rest| - 1] == path[|path| - 1];
    }
  }

  // ---------- what they do in a run ----------

  ghost function FailedOnes(trace: seq<Event>): set<nat> {
    set e | e in trace && Counts(e) :: e.index
  }

  lemma {:induction false} FailuresAreDistinct(host: Host, request: Request, trace: seq<Event>)
    requires Legal(host, request, trace)
    ensures FailureCount(trace) == |FailedOnes(trace)|
  {
    hide Allowed, Advance;
    if trace != [] {
      var before, last := trace[..|trace| - 1], trace[|trace| - 1];
      FailuresAreDistinct(host, request, before);
      assert trace == before + [last];
      if Counts(last) {
        forall e | e in before
          ensures e.index != last.index
        {
          var u :| 0 <= u < |before| && before[u] == e;
          SettledOnce(host, request, trace, u, |trace| - 1);
        }
        assert FailedOnes(trace) == FailedOnes(before) + {last.index};
      } else {
        assert FailedOnes(trace) == FailedOnes(before);
      }
    }
  }

  /** With an obliging store only a blocked operation fails. */
  lemma OnlyBlockedFail(host: Host, request: Request, s: State, e: Event, validId: string -> bool)
    requires Admitted(request, validId) && Obliging(host, request) && Allowed(host, request, s, e) && Counts(e)
    ensures e.index < |request.operations| && e.Blocked? && StandingOf(request.operations, s, e.index).Barred?
  {
    hide Reached, SkipsAll, StandingOf, Prepare;
    var op := request.operations[e.index];
    assert op in request.operations;
    if e.Refused? {
      ReadyNeverUnresolved(host, request, s, e.index);
    }
  }

  lemma {:induction false} FailedIsHopeless(host: Host, request: Request, trace: seq<Event>, t: nat,
                                            validId: string -> bool)
    requires Legal(host, request, trace) && Admitted(request, validId) && Obliging(host, request)
    requires t < |trace| && Counts(trace[t])
    ensures Hopeless(request.operations, trace[t].index)
    decreases t
  {
    hide Hopeless, Admitted, Obliging, Allowed, Advance, UniqueIds;
    var ops := request.operations;
    PrefixIsLegal(host, request, trace, t);
    StateReflectsTrace(host, request, trace[..t]);
    hide Legal;
    var s := After(host, request, trace[..t]);
    OnlyBlockedFail(host, request, s, trace[t], validId);
    var i := trace[t].index;
    var d :| d in Dependencies(ops[i]) && (d !in Declared(ops) || d in s.failed);
    if d !in Declared(ops) {
      UndeclaredIsHopeless(ops, i);
    } else {
      var u :| 0 <= u < t && Counts(trace[..t][u]) && trace[..t][u].index < |ops|
        && ops[trace[..t][u].index].bulkId == d;
      assert trace[..t][u] == trace[u];
      FailedIsHopeless(host, request, trace, u, validId);
      HopelessBehind(ops, i, trace[u].index);
    }
  }

  /** Whatever the store does, in a complete run that the budget does not cut short every hopeless
      operation is a counted failure. */
  lemma {:induction false} HopelessFails(host: Host, request: Request, trace: seq<Event>, path: seq<nat>)
    returns (t: nat)
    requires Legal(host, request, trace) && UniqueIds(request.operations)
    requires Finished(request, After(host, request, trace)) && !Stopped(request, After(host, request, trace))
    requires Walk(request.operations, path) && Undeclared(request.operations, path[|path| - 1])
    ensures t < |trace| && trace[t].index == path[0] && Counts(trace[t])
    decreases |path|
  {
    var ops, i := request.operations, path[0];
    StateReflectsTrace(host, request, trace);
    var s := After(host, request, trace);
    assert i in s.entries;
    t :| 0 <= t < |trace| && trace[t].index == i;
    hide Legal, Stopped, Finished, After;
    var d: string;
    if |path| == 1 {
      d :| d in Dependencies(ops[i]) && d !in Declared(ops);
      if d != "" {
        UndeclaredNames(ops, d);
      }
    } else {
      var rest := path[1..];
      assert Edge(ops, path[0], path[1]);
      assert Walk(ops, rest) by {
        forall k | 0 <= k < |rest| - 1
          ensures Edge(ops, rest[k], rest[k + 1])
        {
          assert Edge(ops, path[k + 1], path[k + 2]);
        }
      }
      d := ops[path[1]].bulkId;
      var v := HopelessFails(host, request, trace, rest);
      assert FailsFor(ops, trace, d);
      NeverBothWays(host, request, trace, v, d);
    }
    if Runs(trace[t]) && !Counts(trace[t]) {
      var u := DependenciesSucceedFirst(host, request, trace, t, d);
    } else if trace[t].Cyclic? {
      CycleReportsExactly(host, request, trace, i);
      assert trace[t] == Cyclic(i);
    }
  }

  lemma UndeclaredNames(ops: seq<Operation>, d: string)
    requires d !in Declared(ops) && d != ""
    ensures forall i | 0 <= i < |ops| :: ops[i].bulkId != d
  {
  }

  /** A name that failed did not succeed. */
  lemma NeverBothWays(host: Host, request: Request, trace: seq<Event>, v: nat, d: string)
    requires Legal(host, request, trace) && UniqueIds(request.operations)
    requires v < |trace| && Counts(trace[v]) && trace[v].index < |request.operations|
    requires request.operations[trace[v].index].bulkId == d != ""
    ensures forall u | 0 <= u < |trace| && Succeeds(trace[u]) && trace[u].index < |request.operations| ::
      request.operations[trace[u].index].bulkId != d
  {
    hide Legal;
    forall u | 0 <= u < |trace| && Succeeds(trace[u]) && trace[u].index < |request.operations|
      ensures request.operations[trace[u].index].bulkId != d
    {
      if u < v {
        SettledOnce(host, request, trace, u, v);
      } else if v < u {
        SettledOnce(host, request, trace, v, u);
      }
    }
  }

  lemma HopelessAreCounted(host: Host, request: Request, trace: seq<Event>)
    requires Legal(host, request, trace) && UniqueIds(request.operations)
    requires Finished(request, After(host, request, trace)) && !Stopped(request, After(host, request, trace))
    ensures HopelessOnes(request.operations) <= FailedOnes(trace)
  {
    hide Legal, Finished, Stopped, After, Undeclared, UniqueIds, Counts;
    var ops := request.operations;
    forall i | i in HopelessOnes(ops)
      ensures i in FailedOnes(trace)
    {
      var path :| Walk(ops, path) && path[0] == i && Undeclared(ops, path[|path| - 1]);
      var t := HopelessFails(host, request, trace, path);
      assert trace[t] in trace;
    }
  }

  lemma CountedAreHopeless(host: Host, request: Request, trace: seq<Event>, validId: string -> bool)
    requires Legal(host, request, trace) && Admitted(request, validId) && Obliging(host, request)
    ensures FailedOnes(trace) <= HopelessOnes(request.operations)
  {
    hide Legal, Admitted, Obliging, Hopeless, Counts;
    forall i | i in FailedOnes(trace)
      ensures i in HopelessOnes(request.operations)
    {
      var e :| e in trace && Counts(e) && e.index == i;
      var t :| 0 <= t < |trace| && trace[t] == e;
      FailedIsHopeless(host, request, trace, t, validId);
      SettledInRange(host, request, trace, t);
    }
  }

  // ---------- the budget ----------

  /** Whatever the store does: with as many hopeless operations as the budget allows failures, the run is
      cut short, and the response reports no more failures than that. */
  lemma HopelessRequestsAreCutShort(host: Host, request: Request, trace: seq<Event>)
    requires Legal(host, request, trace) && UniqueIds(request.operations) && request.failOnErrors > 0
    requires Finished(request, After(host, request, trace))
    requires |HopelessOnes(request.operations)| >= request.failOnErrors
    ensures Stopped(request, After(host, request, trace)) && Failures(trace) == request.failOnErrors
  {
    hide HopelessOnes, FailedOnes, Finished, Legal, After;
    FailuresAreCounted(host, request, trace);
    FailuresAreDistinct(host, request, trace);
    if !Stopped(request, After(host, request, trace)) {
      HopelessAreCounted(host, request, trace);
      FewerElements(HopelessOnes(request.operations), FailedOnes(trace));
    }
    StoppedAtTheBudget(host, request, trace);
  }

  lemma StoppedAtTheBudget(host: Host, request: Request, trace: seq<Event>)
    requires Legal(host, request, trace) && Stopped(request, After(host, request, trace))
    ensures Failures(trace) == FailureCount(trace) == request.failOnErrors
  {
    hide Legal, After, Stopped;
    FailuresSplit(trace);
    StoppedReportsNoCycle(host, request, trace);
    if trace != [] {
      BudgetIsRespected(host, request, trace, |trace| - 1);
    } else {
      assert StartsUnstopped(host, request) by { NothingStopsAtStart(host, request); }
    }
  }

  ghost predicate StartsUnstopped(host: Host, request: Request) {
    Legal(host, request, []) && !Stopped(request, After(host, request, []))
  }

  lemma NothingStopsAtStart(host: Host, request: Request)
    ensures StartsUnstopped(host, request)
  {
  }

  lemma FewerElements(a: set<nat>, b: set<nat>)
    requires a <= b
    ensures |a| <= |b|
  {
    assert b == a + (b - a);
  }

  /** Whatever the store does: a complete run without counted failures reports the operations that lead
      into a cycle, and no others. */
  lemma RunsWithoutFailures(host: Host, request: Request, trace: seq<Event>)
    requires Legal(host, request, trace) && UniqueIds(request.operations) && FailureCount(trace) == 0
    requires Finished(request, After(host, request, trace))
    ensures Failures(trace) == |Circular(request.operations, {})|
  {
    hide Legal, Circular, Finished;
    var s := After(host, request, trace);
    FailuresAreCounted(host, request, trace);
    FailuresSplit(trace);
    StateReflectsTrace(host, request, trace);
    NothingFailed(trace);
    assert s.failed == {};
    CycleReportsAreDistinct(host, request, trace);
    ReportedAreCircular(host, request, trace);
  }

  lemma {:induction false} NothingFailed(trace: seq<Event>)
    requires FailureCount(trace) == 0
    ensures forall t | 0 <= t < |trace| :: !Counts(trace[t])
  {
    if trace != [] {
      NothingFailed(trace[..|trace| - 1]);
    }
  }

  /** With a store that accepts every call, the request alone decides: its response stays within the
      budget exactly when the hopeless operations use the budget up, or they and the operations that lead
      into a cycle are no more than it allows. */
  lemma ObligingStoresShowTheRequest(host: Host, request: Request, trace: seq<Event>, validId: string -> bool)
    requires Legal(host, request, trace) && Finished(request, After(host, request, trace))
    requires Admitted(request, validId) && Obliging(host, request) && request.failOnErrors > 0
    ensures var hopeless, circular := HopelessOnes(request.operations), LeadingToCycles(request.operations);
      && (Stopped(request, After(host, request, trace)) <==> |hopeless| >= request.failOnErrors)
      && (Failures(trace) <= request.failOnErrors <==>
            |hopeless| >= request.failOnErrors || |hopeless + circular| <= request.failOnErrors)
  {
    hide HopelessOnes, FailedOnes, LeadingToCycles, Finished, Legal, Obliging, After, Circular;
    var ops := request.operations;
    assert UniqueIds(ops);
    FailuresAreCounted(host, request, trace);
    FailuresAreDistinct(host, request, trace);
    CountedAreHopeless(host, request, trace, validId);
    FewerElements(FailedOnes(trace), HopelessOnes(ops));
    if Stopped(request, After(host, request, trace)) {
      StoppedAtTheBudget(host, request, trace);
    } else {
      HopelessAreCounted(host, request, trace);
      assert FailedOnes(trace) == HopelessOnes(ops);
      FailuresSplit(trace);
      CycleReportsAreDistinct(host, request, trace);
      ReportedAreCircular(host, request, trace);
      CircularAreNotHopeless(host, request, trace);
      assert HopelessOnes(ops) + LeadingToCycles(ops)
        == HopelessOnes(ops) + Circular(ops, After(host, request, trace).failed);
    }
  }

  lemma CircularAreNotHopeless(host: Host, request: Request, trace: seq<Event>)
    requires Legal(host, request, trace) && UniqueIds(request.operations)
    requires FailedOnes(trace) == HopelessOnes(request.operations)
    ensures Circular(request.operations, After(host, request, trace).failed)
         == LeadingToCycles(request.operations) - HopelessOnes(request.operations)
  {
    hide LeadsToCycle, Hopeless, UniqueIds;
    StateReflectsTrace(host, request, trace);
    var ops, failed := request.operations, After(host, request, trace).failed;
    hide Legal, After;
    forall i: nat | i < |ops|
      ensures Unbarred(ops, failed, i) <==> !Hopeless(ops, i)
    {
      HopelessIsBarred(host, request, trace, failed, i);
    }
  }

  lemma HopelessIsBarred(host: Host, request: Request, trace: seq<Event>, failed: set<string>, i: nat)
    requires Legal(host, request, trace) && i < |request.operations| && UniqueIds(request.operations)
    requires FailedOnes(trace) == HopelessOnes(request.operations)
    requires forall d :: d in failed <==> d != "" && FailsFor(request.operations, trace, d)
    ensures Unbarred(request.operations, failed, i) <==> !Hopeless(request.operations, i)
  {
    hide Hopeless, Legal, Counts, UniqueIds, FailsFor, FailedOnes, HopelessOnes, Edge;
    var ops := request.operations;
    if Hopeless(ops, i) {
      HopelessNext(ops, i);
      if j: nat :| Edge(ops, i, j) && Hopeless(ops, j) {
        HopelessHasFailed(ops, trace, i, j);
      }
    }
    if !Unbarred(ops, failed, i) {
      var d :| d in Dependencies(ops[i]) && (d !in Declared(ops) || d in failed);
      if d !in Declared(ops) {
        UndeclaredIsHopeless(ops, i);
      } else {
        FailedWasHopeless(ops, trace, i, d);
      }
    }
  }

  lemma HopelessHasFailed(ops: seq<Operation>, trace: seq<Event>, i: nat, j: nat)
    requires FailedOnes(trace) == HopelessOnes(ops) && Edge(ops, i, j) && Hopeless(ops, j)
    ensures i < |ops| && j < |ops| && ops[j].bulkId in Dependencies(ops[i])
    ensures ops[j].bulkId != "" && FailsFor(ops, trace, ops[j].bulkId)
  {
    hide Hopeless, Counts;
    assert j in HopelessOnes(ops) && j in FailedOnes(trace);
    var e :| e in trace && Counts(e) && e.index == j;
    var t :| 0 <= t < |trace| && trace[t] == e;
    assert FailsFor(ops, trace, ops[j].bulkId);
  }

  lemma FailedWasHopeless(ops: seq<Operation>, trace: seq<Event>, i: nat, d: string)
    requires FailedOnes(trace) == HopelessOnes(ops) && FailsFor(ops, trace, d)
    requires i < |ops| && d in Dependencies(ops[i]) && d != ""
    ensures Hopeless(ops, i)
  {
    hide Hopeless, Counts;
    var t :| 0 <= t < |trace| && Counts(trace[t]) && trace[t].index < |ops| && ops[trace[t].index].bulkId == d;
    assert trace[t] in trace && trace[t].index in FailedOnes(trace);
    HopelessBehind(ops, i, trace[t].index);
  }
}
