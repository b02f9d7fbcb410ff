/** Searches over Users and Groups with the server's own rendering: when they break, and that after a
    history of stable inputs they never do. */
module ReadableSearch {
  import opened Values
  import opened Text
  import opened Records
  import opened Memory
  import opened StoreSafety
  import opened FilterMeaning
  import opened Search
  import opened SearchScan
  import opened Readability
  import StoredResources

  /** The rendering of Users and Groups. */
  function Renderer(site: Site): Record -> Option<Document> {
    (r: Record) =>
      match Standard(r.resourceType)
      case None => None
      case Some(def) => StoredResources.Render(site.h, site.lib, def, site.meta, r)
  }

  predicate StandardTypes(types: seq<string>) { forall t | t in types :: Standard(t).Some? }

  /** A live record that the search covers. */
  predicate Covered(r: Record, scope: string, types: seq<string>) { r.scope == scope && r.resourceType in types }

  lemma ListedAreCovered(lib: Library, s: StoreState, scope: string, types: seq<string>, found: seq<Record>)
    requires Listed(lib, s, scope, types, found)
    ensures forall x :: x in found <==> exists k :: k in s.records && s.records[k] == x && Covered(x, scope, types)
  {
    forall x
      ensures x in found <==> exists k :: k in s.records && s.records[k] == x && Covered(x, scope, types)
    {
      if k :| k in s.records && s.records[k] == x && Covered(x, scope, types) {
        assert k in OfType(lib, s, scope, x.resourceType);
      }
      if x in found {
        var t, k :| t in types && k in OfType(lib, s, scope, t) && s.records[k] == x;
        assert k in s.records && Covered(x, scope, types);
      }
    }
  }

  lemma RenderedIsReadable(site: Site, r: Record)
    requires Standard(r.resourceType).Some?
    ensures Renderer(site)(r).Some? <==> Readable(site, r)
  {
    hide StoredResources.Render, Standard;
  }

  /** A search over Users and Groups renders all it finds exactly when every record it covers is readable. */
  lemma SearchRendersExactly(site: Site, s: StoreState, scope: string, types: seq<string>, found: seq<Record>)
    requires StandardTypes(types) && Listed(site.lib, s, scope, types, found)
    ensures AllRender(Renderer(site), found) <==>
      forall k | k in s.records && Covered(s.records[k], scope, types) :: Readable(site, s.records[k])
  {
    hide Listed, Readable, Standard, Renderer;
    ListedAreCovered(site.lib, s, scope, types, found);
    forall k | k in s.records && Covered(s.records[k], scope, types)
      ensures Renderer(site)(s.records[k]).Some? <==> Readable(site, s.records[k])
    {
      RenderedIsReadable(site, s.records[k]);
    }
    if AllRender(Renderer(site), found) {
      forall k | k in s.records && Covered(s.records[k], scope, types)
        ensures Readable(site, s.records[k])
      {
        assert s.records[k] in found;
        var i :| 0 <= i < |found| && found[i] == s.records[k];
      }
    } else {
      var i :| 0 <= i < |found| && Renderer(site)(found[i]).None?;
      assert found[i] in found;
    }
  }

  /** After any history that stored only stable inputs, no search over Users and Groups breaks. */
  lemma StableHistoriesNeverBreakSearches(site: Site, s: StoreState, history: seq<Asked>, scope: string,
                                          types: seq<string>, found: seq<Record>)
    requires Dependable(site) && AllReadable(site, s) && Sound(site.lib, s) && AllStoreStable(site, s, history)
    requires StandardTypes(types) && Listed(site.lib, Run(site, s, history), scope, types, found)
    ensures AllRender(Renderer(site), found)
  {
    hide Dependable, Sound, AllStoreStable, Run, Readable, Listed, StandardTypes, AllRender, StaysReadable;
    StoresStayReadable(site, s, history);
    SearchRendersExactly(site, Run(site, s, history), scope, types, found);
  }

  /** The whole search with the server's rendering: too large, broken by an unreadable record it covers, or
      answered from everything. */
  method SearchStandard(site: Site, tx: MemoryTransaction, c: Comparers, plan: Plan, v: View, scope: string,
                        types: seq<string>, maximum: nat) returns (r: Reply, ghost found: seq<Record>)
    requires tx.lib == site.lib && StandardTypes(types)
    requires scope != "" && forall t | t in types :: ValidName(t)
    requires plan.start >= 1 && plan.count >= 0 && (plan.filter.Some? ==> WellTyped(c, plan.filter.value))
    ensures r.TooLarge? <==> CandidateCount(tx.lib, tx.State(), scope, types) > maximum
    ensures r.Broken? <==>
      && CandidateCount(tx.lib, tx.State(), scope, types) <= maximum
      && exists k | k in tx.records && Covered(tx.records[k], scope, types) :: !Readable(site, tx.records[k])
    ensures r.Answer? ==>
      && Listed(tx.lib, tx.State(), scope, types, found) && AllRender(Renderer(site), found)
      && r == AnswerFor(c, plan, v, Rendered(Renderer(site), found))
  {
    hide Listed, CandidateCount, Readable, AllRender, Rendered, AnswerFor, WellTyped, StandardTypes, Renderer;
    r, found := Execute(tx, c, plan, v, Renderer(site), scope, types, maximum);
    if CandidateCount(tx.lib, tx.State(), scope, types) <= maximum {
      SearchRendersExactly(site, tx.State(), scope, types, found);
      AnswersAreAnswers(c, plan, v, Renderer(site), found);
    }
  }

  lemma AnswersAreAnswers(c: Comparers, plan: Plan, v: View, render: Record -> Option<Document>, found: seq<Record>)
    requires plan.start >= 1 && plan.count >= 0
    ensures AllRender(render, found) ==> AnswerFor(c, plan, v, Rendered(render, found)).Answer?
  {
  }
}
