/** The candidate scan of a search over several resource types, within one budget. */
module SearchScan {
  import opened Values
  import opened Text
  import opened Records
  import opened Memory
  import opened Order
  import opened FilterMeaning
  import opened Search
  import opened Projection

  function Selecting(scope: string, t: string, limit: int): Query { Query(scope, t, "", "", limit) }

  function OfType(lib: Library, s: StoreState, scope: string, t: string): set<string> {
    SelectedKeys(lib, s, Selecting(scope, t, 1))
  }

  function CandidateCount(lib: Library, s: StoreState, scope: string, types: seq<string>): nat {
    if types == [] then 0
    else CandidateCount(lib, s, scope, types[..|types| - 1]) + |OfType(lib, s, scope, types[|types| - 1])|
  }

  lemma {:induction false} CountGrows(lib: Library, s: StoreState, scope: string, types: seq<string>, n: nat)
    requires n <= |types|
    ensures CandidateCount(lib, s, scope, types[..n]) <= CandidateCount(lib, s, scope, types)
    decreases |types|
  {
    if n < |types| {
      var init := types[..|types| - 1];
      CountGrows(lib, s, scope, init, n);
      assert init[..n] == types[..n];
    } else {
      assert types[..n] == types;
    }
  }

  ghost predicate Listed(lib: Library, s: StoreState, scope: string, types: seq<string>, found: seq<Record>) {
    && |found| == CandidateCount(lib, s, scope, types)
    && (forall x | x in found :: x.resourceType in types)
    && (forall x :: x in found <==> exists t, k :: t in types && k in OfType(lib, s, scope, t) && s.records[k] == x)
  }

  /** Lists every record of the given types, or fails when together they are more than maximum. */
  method Candidates(tx: MemoryTransaction, scope: string, types: seq<string>, maximum: nat)
    returns (r: Result<seq<Record>>)
    requires scope != "" && forall t | t in types :: ValidName(t)
    ensures CandidateCount(tx.lib, tx.State(), scope, types) > maximum ==> r == Err(TooMany)
    ensures CandidateCount(tx.lib, tx.State(), scope, types) <= maximum ==>
              r.Ok? && Listed(tx.lib, tx.State(), scope, types, r.value)
    ensures r.Ok? && DistinctIds(tx.records) && Distinct(types) ==> Distinct(r.value)
  {
    hide SelectedKeys, Selected, ValidName;
    var found: seq<Record> := [];
    var remaining := maximum;
    for n := 0 to |types|
      invariant 0 <= remaining == maximum - CandidateCount(tx.lib, tx.State(), scope, types[..n])
      invariant Listed(tx.lib, tx.State(), scope, types[..n], found)
      invariant DistinctIds(tx.records) && Distinct(types) ==> Distinct(found)
    {
      assert types[..n + 1] == types[..n] + [types[n]] && types[..n + 1][..n] == types[..n];
      CountGrows(tx.lib, tx.State(), scope, types, n + 1);
      assert types[n] in types;
      var limit := if remaining == 0 then 1 else remaining;
      SelectionIgnoresLimit(tx.lib, tx.State(), scope, types[n], limit);
      var listed := tx.List(Selecting(scope, types[n], limit));
      if listed.Err? {
        return listed;
      }
      if remaining == 0 && |listed.value| != 0 {
        return Err(TooMany);
      }
      remaining := remaining - |listed.value|;
      ListedExtends(tx.lib, tx.State(), scope, types, n, found, listed.value);
      if DistinctIds(tx.records) && Distinct(types) {
        DistinctAcrossTypes(types, n, found, listed.value);
      }
      found := found + listed.value;
    }
    assert types[..|types|] == types;
    return Ok(found);
  }

  lemma SelectionIgnoresLimit(lib: Library, s: StoreState, scope: string, t: string, limit: int)
    ensures SelectedKeys(lib, s, Selecting(scope, t, limit)) == OfType(lib, s, scope, t)
    ensures forall k | k in OfType(lib, s, scope, t) :: k in s.records && s.records[k].resourceType == t
    ensures limit >= 1 && scope != "" && ValidName(t) ==> ValidQuery(Selecting(scope, t, limit))
  {
  }

  lemma ListedExtends(lib: Library, s: StoreState, scope: string, types: seq<string>, n: nat, found: seq<Record>,
                      more: seq<Record>)
    requires n < |types| && Listed(lib, s, scope, types[..n], found)
    requires |more| == |OfType(lib, s, scope, types[n])|
    requires forall x :: x in more <==> exists k :: k in OfType(lib, s, scope, types[n]) && s.records[k] == x
    ensures Listed(lib, s, scope, types[..n + 1], found + more)
  {
    hide SelectedKeys, Selected;
    SelectionIgnoresLimit(lib, s, scope, types[n], 1);
    assert types[..n + 1] == types[..n] + [types[n]] && types[..n + 1][..n] == types[..n];
  }

  lemma DistinctAcrossTypes(types: seq<string>, n: nat, found: seq<Record>, more: seq<Record>)
    requires n < |types| && Distinct(types) && Distinct(found) && Sorted(ById, more)
    requires forall x | x in found :: x.resourceType in types[..n]
    requires forall x | x in more :: x.resourceType == types[n]
    ensures Distinct(found + more)
  {
    var all := found + more;
    forall i, j | 0 <= i < j < |all|
      ensures all[i] != all[j]
    {
      if i < |found| <= j {
        assert all[i] in found && all[j] in more;
      } else if |found| <= i {
        assert ById(more[i - |found|], more[j - |found|]);
        CompareTextAntisymmetric(all[i].id, all[j].id);
      }
    }
  }

  // ---------- the whole search ----------

  datatype Reply = TooLarge | Broken | Answer(resources: seq<Document>, total: nat)

  datatype View = View(fold: string -> string, wanted: seq<Path>, excluded: seq<Path>, returnability: Returnability)

  function Shown(v: View, d: Document): Document { Project(v.fold, d, v.wanted, v.excluded, v.returnability) }

  predicate AllRender(render: Record -> Option<Document>, found: seq<Record>) {
    forall i | 0 <= i < |found| :: render(found[i]).Some?
  }

  function Rendered(render: Record -> Option<Document>, found: seq<Record>): seq<Document>
    requires AllRender(render, found)
  {
    seq(|found|, i requires 0 <= i < |found| => render(found[i]).value)
  }

  ghost function AnswerFor(c: Comparers, plan: Plan, v: View, documents: seq<Document>): Reply
    requires plan.start >= 1 && plan.count >= 0
  {
    var kept := Kept(c, plan.filter, documents);
    var page := Page(plan.start, plan.count, Ranked(c, plan.order, kept));
    Answer(seq(|page|, i requires 0 <= i < |page| => Shown(v, page[i])), |kept|)
  }

  lemma KeptAppend(c: Comparers, filter: Option<Bound>, s: seq<Document>, d: Document)
    ensures Kept(c, filter, s + [d]) == Kept(c, filter, s) + if Matches(c, filter, d) then [d] else []
  {
    assert (s + [d])[..|s|] == s;
  }

  lemma {:induction false} KeepAll(c: Comparers, s: seq<Document>)
    ensures Kept(c, None, s) == s
  {
    if s != [] {
      KeepAll(c, s[..|s| - 1]);
    }
  }

  lemma RenderedAppend(render: Record -> Option<Document>, found: seq<Record>, i: nat)
    requires i < |found| && AllRender(render, found[..i])
    ensures render(found[i]).None? ==> !AllRender(render, found)
    ensures render(found[i]).Some? ==>
      AllRender(render, found[..i + 1])
        && Rendered(render, found[..i + 1]) == Rendered(render, found[..i]) + [render(found[i]).value]
  {
  }

  /** Renders the candidates and keeps the matches; nothing when one of them cannot be rendered. */
  method RenderMatches(c: Comparers, filter: Option<Bound>, render: Record -> Option<Document>, found: seq<Record>)
    returns (r: Option<seq<Document>>)
    requires filter.Some? ==> WellTyped(c, filter.value)
    ensures r == if AllRender(render, found) then Some(Kept(c, filter, Rendered(render, found))) else None
  {
    hide WellTyped, Holds, Kept, Rendered, AllRender;
    assert AllRender(render, found[..0]) && Kept(c, filter, Rendered(render, found[..0])) == [] by {
      NothingRendered(c, filter, render, found);
    }
    var all: seq<Document> := [];
    for i := 0 to |found|
      invariant AllRender(render, found[..i]) && all == Kept(c, filter, Rendered(render, found[..i]))
    {
      RenderedAppend(render, found, i);
      var document := render(found[i]);
      if document.None? {
        return None;
      }
      var matched := Some(true);
      if filter.Some? {
        matched := Match(c, filter.value, document.value);
      }
      KeptAppend(c, filter, Rendered(render, found[..i]), document.value);
      if matched.value {
        all := all + [document.value];
      }
    }
    assert found[..|found|] == found;
    return Some(all);
  }

  lemma NothingRendered(c: Comparers, filter: Option<Bound>, render: Record -> Option<Document>, found: seq<Record>)
    ensures AllRender(render, found[..0]) && Kept(c, filter, Rendered(render, found[..0])) == []
  {
  }

  /** Scans, renders, filters, sorts, pages and projects. A search never answers from part of the
      candidates: either all of them fit the budget and were considered, or it fails. */
  method Execute(tx: MemoryTransaction, c: Comparers, plan: Plan, v: View, render: Record -> Option<Document>,
                 scope: string, types: seq<string>, maximum: nat) returns (r: Reply, ghost found: seq<Record>)
    requires scope != "" && forall t | t in types :: ValidName(t)
    requires plan.start >= 1 && plan.count >= 0 && (plan.filter.Some? ==> WellTyped(c, plan.filter.value))
    ensures CandidateCount(tx.lib, tx.State(), scope, types) > maximum ==> r == TooLarge
    ensures CandidateCount(tx.lib, tx.State(), scope, types) <= maximum ==>
      && Listed(tx.lib, tx.State(), scope, types, found)
      && r == if AllRender(render, found) then AnswerFor(c, plan, v, Rendered(render, found)) else Broken
  {
    hide WellTyped, CandidateCount, Listed, Kept, Page, Ranked, Shown, AllRender, Rendered;
    var candidates := Candidates(tx, scope, types, maximum);
    if candidates.Err? {
      found := [];
      return TooLarge, found;
    }
    found := candidates.value;
    var matches := RenderMatches(c, plan.filter, render, candidates.value);
    if matches.None? {
      return Broken, found;
    }
    var all := matches.value;
    var resources := new Document[|all|](i requires 0 <= i < |all| => all[i]);
    assert resources[..] == all;
    KeepAll(c, all);
    var page, total := ApplySearch(c, plan.(filter := None), resources);
    var shown: seq<Document> := [];
    for i := 0 to |page|
      invariant shown == seq(i, k requires 0 <= k < i => Shown(v, page[k]))
    {
      shown := shown + [Shown(v, page[i])];
    }
    return Answer(shown, total), found;
  }
}
