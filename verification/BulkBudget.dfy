/** The failure budget and cycle reports together: when a response may report more failures than
    the budget allows. */
module BulkBudget {
  import opened Values
  import opened BulkReferences
  import opened BulkExecutor
  import opened BulkTheorems

  /** Every failure a response reports, counted or not. */
  predicate Fails(e: Event) {
    Counts(e) || e.Cyclic?
  }

  function Failures(trace: seq<Event>): nat {
    if trace == [] then 0
    else Failures(trace[..|trace| - 1]) + if Fails(trace[|trace| - 1]) then 1 else 0
  }

  function CycleReports(trace: seq<Event>): nat {
    if trace == [] then 0
    else CycleReports(trace[..|trace| - 1]) + if trace[|trace| - 1].Cyclic? then 1 else 0
  }

  lemma {:induction false} FailuresSplit(trace: seq<Event>)
    ensures Failures(trace) == FailureCount(trace) + CycleReports(trace)
  {
    if trace != [] {
      FailuresSplit(trace[..|trace| - 1]);
    }
  }

  lemma {:induction false} NoCycleReports(trace: seq<Event>)
    requires forall e | e in trace :: !e.Cyclic?
    ensures CycleReports(trace) == 0
  {
    if trace != [] {
      NoCycleReports(trace[..|trace| - 1]);
    }
  }

  /** Before anything but a cycle report there was no cycle report. */
  lemma NoCycleReportsBefore(host: Host, request: Request, trace: seq<Event>, t: nat)
    requires Legal(host, request, trace) && t < |trace| && !trace[t].Cyclic?
    ensures CycleReports(trace[..t]) == 0
  {
    forall e | e in trace[..t]
      ensures !e.Cyclic?
    {
      var u :| 0 <= u < t && trace[u] == e;
      if e.Cyclic? {
        CyclesComeLast(host, request, trace, u, t);
      }
    }
    NoCycleReports(trace[..t]);
  }

  /** With failOnErrors = k > 0 nothing is attempted or blocked once k operations have failed in any
      way: what stops is execution. Only cycle reports may follow. */
  lemma NothingRunsAfterTheLastFailure(host: Host, request: Request, trace: seq<Event>, t: nat)
    requires Legal(host, request, trace) && t < |trace| && request.failOnErrors > 0
    requires Runs(trace[t]) || Counts(trace[t])
    ensures Failures(trace[..t]) < request.failOnErrors
  {
    BudgetIsRespected(host, request, trace, t);
    NoCycleReportsBefore(host, request, trace, t);
    FailuresSplit(trace[..t]);
  }

  // ---------- a response with more failures than the budget ----------

  /** A POST whose data refers to another bulkId. */
  function Referring(id: string, other: string): Operation {
    Operation(Post, id, Some(Path("Users", "", "")), "", Body(map["manager" := Text("bulkId:" + other)]))
  }

  const MUTUAL := Request([Referring("a", "b"), Referring("b", "a")], 1)

  lemma ReferringDepends(id: string, other: string)
    requires other != ""
    ensures Dependencies(Referring(id, other)) == {other}
  {
    var text := "bulkId:" + other;
    var document := map["manager" := Text(text)];
    assert text[..7] == "bulkId:" && text[7..] == other;
    assert IsReference(text) && ReferenceName(text) == other;
    assert References(Text(text)) == {other};
    assert document["manager"] == Text(text);
    assert References(Object(document)) == {other};
  }

  lemma MutualWaits(s: State)
    requires s.references == map[] && s.failed == {}
    ensures SkipsAll(MUTUAL.operations, s, 0, 2)
  {
    ReferringDepends("a", "b");
    ReferringDepends("b", "a");
    var ops := MUTUAL.operations;
    assert ops[0] == Referring("a", "b") && ops[1] == Referring("b", "a");
    hide Dependencies;
    assert "a" in Declared(ops) && "b" in Declared(ops) by {
      assert ops[0].bulkId == "a" && ops[1].bulkId == "b";
    }
  }

  /** Two operations that refer to each other, with a budget of one failure: whatever the store, the
      one complete run reports two failures. The request is one that decoding accepts. */
  lemma CycleReportsExceedTheBudget(host: Host, validId: string -> bool)
    requires validId("a") && validId("b")
    ensures Bounded(MUTUAL) && UniqueIds(MUTUAL.operations)
    ensures forall i | 0 <= i < |MUTUAL.operations| :: WellFormed(MUTUAL.operations[i], validId)
    ensures Legal(host, MUTUAL, [Cyclic(0), Cyclic(1)])
    ensures Finished(MUTUAL, After(host, MUTUAL, [Cyclic(0), Cyclic(1)]))
    ensures Failures([Cyclic(0), Cyclic(1)]) == 2 > MUTUAL.failOnErrors
  {
    var trace := [Cyclic(0), Cyclic(1)];
    assert trace[..1] == [Cyclic(0)] && [Cyclic(0)][..0] == [];
    MutualWaits(START);
    assert Legal(host, MUTUAL, []) && After(host, MUTUAL, []) == START;
    var one := Advance(host, MUTUAL.operations, START, Cyclic(0));
    hide StandingOf, Referring, FailureEntry;
    assert Allowed(host, MUTUAL, START, Cyclic(0));
    assert Legal(host, MUTUAL, [Cyclic(0)]) && After(host, MUTUAL, [Cyclic(0)]) == one;
    MutualWaits(one);
    assert Allowed(host, MUTUAL, one, Cyclic(1));
    assert Failures([]) == 0 && Failures([Cyclic(0)]) == 1;
  }

  // ---------- exactly when the response stays within the budget ----------

  /** The operations that get a cycle report in a complete run: they lead into a cycle and have no
      undeclared or failed dependency. */
  ghost function Circular(ops: seq<Operation>, failed: set<string>): set<nat> {
    set i | i in Positions(|ops|) && i < |ops| && LeadsToCycle(ops, i) && Unbarred(ops, failed, i)
  }

  ghost function ReportedCycles(trace: seq<Event>): set<nat> {
    set e | e in trace && e.Cyclic? :: e.index
  }

  lemma {:induction false} CycleReportsAreDistinct(host: Host, request: Request, trace: seq<Event>)
    requires Legal(host, request, trace)
    ensures CycleReports(trace) == |ReportedCycles(trace)|
  {
    hide Allowed, Advance;
    if trace != [] {
      var before, last := trace[..|trace| - 1], trace[|trace| - 1];
      CycleReportsAreDistinct(host, request, before);
      assert trace == before + [last];
      if last.Cyclic? {
        forall e | e in before
          ensures e.index != last.index
        {
          var u :| 0 <= u < |before| && before[u] == e;
          SettledOnce(host, request, trace, u, |trace| - 1);
        }
        assert ReportedCycles(trace) == ReportedCycles(before) + {last.index};
      } else {
        assert ReportedCycles(trace) == ReportedCycles(before);
      }
    }
  }

  lemma StoppedReportsNoCycle(host: Host, request: Request, trace: seq<Event>)
    requires Legal(host, request, trace) && Stopped(request, After(host, request, trace))
    ensures CycleReports(trace) == 0
  {
    if trace != [] {
      var last := trace[|trace| - 1];
      PrefixIsLegal(host, request, trace, |trace| - 1);
      assert !last.Cyclic?;
      NoCycleReportsBefore(host, request, trace, |trace| - 1);
    }
  }

  /** A complete response stays within the budget exactly when the run was cut short by it, or the
      counted failures leave room for every operation that waits on a cycle. */
  lemma BudgetBoundsTheResponse(host: Host, request: Request, trace: seq<Event>)
    requires Legal(host, request, trace) && UniqueIds(request.operations) && request.failOnErrors > 0
    requires Finished(request, After(host, request, trace))
    ensures var s := After(host, request, trace);
      Failures(trace) <= request.failOnErrors <==>
        || Stopped(request, s)
        || s.failures + |Circular(request.operations, s.failed)| <= request.failOnErrors
  {
    var s := After(host, request, trace);
    FailuresSplit(trace);
    FailuresAreCounted(host, request, trace);
    if Stopped(request, s) {
      StoppedReportsNoCycle(host, request, trace);
      if trace != [] {
        BudgetIsRespected(host, request, trace, |trace| - 1);
      }
    } else {
      CycleReportsAreDistinct(host, request, trace);
      ReportedAreCircular(host, request, trace);
    }
  }

  lemma ReportedAreCircular(host: Host, request: Request, trace: seq<Event>)
    requires Legal(host, request, trace) && UniqueIds(request.operations)
    requires Finished(request, After(host, request, trace)) && !Stopped(request, After(host, request, trace))
    ensures ReportedCycles(trace) == Circular(request.operations, After(host, request, trace).failed)
  {
    hide Legal, After, Finished, Stopped, LeadsToCycle, Unbarred, UniqueIds;
    var circular := Circular(request.operations, After(host, request, trace).failed);
    forall i: nat | i < |request.operations|
      ensures i in ReportedCycles(trace) <==> i in circular
    {
      CycleReportsExactly(host, request, trace, i);
      if i in ReportedCycles(trace) {
        var e :| e in trace && e.Cyclic? && e.index == i;
        assert e == Cyclic(i);
      }
      if Cyclic(i) in trace {
        assert Cyclic(i).index == i;
      }
    }
    forall i | i in ReportedCycles(trace)
      ensures i < |request.operations|
    {
      var e :| e in trace && e.Cyclic? && e.index == i;
      var t :| 0 <= t < |trace| && trace[t] == e;
      SettledInRange(host, request, trace, t);
    }
  }
}
