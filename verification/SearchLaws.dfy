/** What a search sorts by, document by document: which element's value counts, and how two documents
    stand to each other. */
module SearchLaws {
  import opened Values
  import opened FilterMeaning
  import opened FilterLaws
  import opened Order
  import opened Search
  import opened SearchScan
  import Projection

  // ---------- the value that counts ----------

  predicate MarkedPrimary(v: Value) { v.Object? && "primary" in v.fields && v.fields["primary"] == Bool(true) }

  /** The element at i counts: the first one marked as primary, or without one the first object. */
  predicate Counts(items: seq<Value>, i: int) {
    && 0 <= i < |items| && items[i].Object?
    && if MarkedPrimary(items[i]) then forall j | 0 <= j < i :: !MarkedPrimary(items[j])
       else (forall j | 0 <= j < |items| :: !MarkedPrimary(items[j])) && forall j | 0 <= j < i :: !items[j].Object?
  }

  /** For a dotted path into an array the values are those of the element that counts, and else those
      at the path. */
  lemma SortValuesCount(d: Document, path: seq<string>)
    ensures |path| >= 2 && path[0] in d && d[path[0]].Array? ==>
      var items := d[path[0]].items;
      && (forall i | Counts(items, i) :: SortValues(d, path) == ValuesAt(items[i].fields, path[1..]))
      && ((exists i :: Counts(items, i)) <==> exists i | 0 <= i < |items| :: items[i].Object?)
    ensures (|path| >= 2 && path[0] in d && d[path[0]].Array?
             ==> forall i | 0 <= i < |d[path[0]].items| :: !d[path[0]].items[i].Object?)
      ==> SortValues(d, path) == ValuesAt(d, path)
  {
    if |path| >= 2 && path[0] in d && d[path[0]].Array? {
      var items := d[path[0]].items;
      SelectionCounts(items);
    }
  }

  lemma SelectionCounts(items: seq<Value>)
    ensures forall i | Counts(items, i) :: Selection(items) == Some(items[i].fields)
    ensures Selection(items).Some? <==> exists i :: Counts(items, i)
    ensures Selection(items).Some? <==> exists i | 0 <= i < |items| :: items[i].Object?
  {
    if Selection(items).Some? {
      var i := SelectedCounts(items);
      forall k | Counts(items, k)
        ensures k == i
      {
        OnlyOneCounts(items, i, k);
      }
    } else {
      assert forall j | 0 <= j < |items| :: items[j] in items;
    }
  }

  lemma SelectedCounts(items: seq<Value>) returns (i: int)
    requires Selection(items).Some?
    ensures Counts(items, i) && items[i] == Object(Selection(items).value)
  {
    hide Selection;
    i :| 0 <= i < |items| && items[i] == Object(Selection(items).value)
      && if IsPrimary(items[i]) then forall j | 0 <= j < i :: !IsPrimary(items[j])
         else (forall v | v in items :: !IsPrimary(v)) && forall j | 0 <= j < i :: !items[j].Object?;
    assert forall j | 0 <= j < |items| :: items[j] in items;
  }

  lemma OnlyOneCounts(items: seq<Value>, i: int, k: int)
    requires Counts(items, i) && Counts(items, k)
    ensures i == k
  {
  }

  // ---------- how two documents stand ----------

  function Identity(d: Document): string { if "id" in d && d["id"].Text? then d["id"].text else "" }

  /** x comes before y by their values: a missing value is last, and two values as they compare. */
  ghost predicate Sooner(c: Comparers, o: Ordering, x: Document, y: Document) {
    var a, b := SortValues(x, o.path), SortValues(y, o.path);
    && a != []
    && (b == [] || Meets(c, o.attribute, "lt", a[0], b[0]))
  }

  /** The order of a search: by value, ties by ID, and the other way round when it is descending. */
  lemma PrecedesMeans(c: Comparers, o: Ordering, x: Document, y: Document)
    ensures Precedes(c, o, x, y) <==>
      if o.descending
      then Sooner(c, o, y, x) || (!Sooner(c, o, x, y) && Below(Identity(y), Identity(x)))
      else Sooner(c, o, x, y) || (!Sooner(c, o, y, x) && Below(Identity(x), Identity(y)))
  {
    var a, b := SortValues(x, o.path), SortValues(y, o.path);
    if a != [] && b != [] {
      SortingMeets(c, o.attribute, a[0], b[0]);
      SortingMeets(c, o.attribute, b[0], a[0]);
      OrderFollowsKeys(c, a[0], b[0], o.attribute);
      OrderFollowsKeys(c, b[0], a[0], o.attribute);
    }
    TextsOrder(Identity(x), Identity(y));
    hide OrderValues, Meets, KeyOf, Before, CompareText, Below, SortValues;
  }

  // ---------- what is answered ----------

  /** An answer counts all matches and shows the page of their ranking that was asked for, each document
      projected to what the view wants and lets through. */
  lemma AnswersShow(c: Comparers, plan: Plan, v: View, documents: seq<Document>)
    requires plan.start >= 1 && plan.count >= 0
    ensures var r, ranked := AnswerFor(c, plan, v, documents), Ranked(c, plan.order, Kept(c, plan.filter, documents));
      && r.total == |ranked| && (forall d :: d in ranked <==> d in documents && Matches(c, plan.filter, d))
      && |r.resources| == (if plan.start > |ranked| then 0
                           else if plan.start - 1 + plan.count > |ranked| then |ranked| - plan.start + 1
                           else plan.count)
      && forall i | 0 <= i < |r.resources| ::
           r.resources[i] ==
             Projection.Project(v.fold, ranked[plan.start - 1 + i], v.wanted, v.excluded, v.returnability)
  {
    hide Projection.Project, Matches, Ranked;
    RankedAre(c, plan.order, Kept(c, plan.filter, documents));
    hide Kept;
  }

  lemma RankedAre(c: Comparers, o: Ordering, kept: seq<Document>)
    ensures |Ranked(c, o, kept)| == |kept| && forall d :: d in Ranked(c, o, kept) <==> d in kept
  {
    var ranked := Ranked(c, o, kept);
    assert |ranked| == |multiset(ranked)| == |multiset(kept)| == |kept|;
    forall d
      ensures d in ranked <==> d in kept
    {
      assert d in ranked <==> d in multiset(ranked);
    }
  }
}
