/** Search: sorting and paging in place, and what a result does not depend on. */
module Search {
  import opened Values
  import opened Order
  import opened Schema
  import opened FilterMeaning

  // ---------- sorting ----------

  /** No sort path means the order of the candidates is kept. */
  datatype Ordering = Ordering(path: seq<string>, attribute: Attribute, descending: bool)

  /** A compiled search. */
  datatype Plan = Plan(filter: Option<Bound>, order: Ordering, start: int, count: int)

  /** The first primary object, or else the first object. */
  function Selection(values: seq<Value>): (r: Option<Document>)
    ensures r.None? ==> forall v | v in values :: !v.Object?
    ensures r.Some? ==> exists i | 0 <= i < |values| ::
      && values[i] == Object(r.value)
      && if IsPrimary(values[i]) then forall j | 0 <= j < i :: !IsPrimary(values[j])
         else (forall v | v in values :: !IsPrimary(v)) && forall j | 0 <= j < i :: !values[j].Object?
  {
    if values == [] then None
    else if IsPrimary(values[0]) then Some(values[0].fields)
    else
      var rest := Selection(values[1..]);
      assert forall v | v in values :: v == values[0] || v in values[1..];
      if values[0].Object? && !(rest.Some? && IsPrimary(Object(rest.value))) then Some(values[0].fields) else rest
  }

  function SortValues(document: Document, path: seq<string>): seq<Value> {
    if |path| >= 2 && path[0] in document && document[path[0]].Array? && Selection(document[path[0]].items).Some?
    then ValuesAt(Selection(document[path[0]].items).value, path[1..])
    else ValuesAt(document, path)
  }

  /** Documents without a value come last; values that cannot be compared tie. */
  function CompareSort(c: Comparers, left: Document, right: Document, path: seq<string>, contract: Attribute): int {
    var a, b := SortValues(left, path), SortValues(right, path);
    if a == [] && b == [] then 0
    else if a == [] then 1
    else if b == [] then -1
    else match OrderValues(c, a[0], b[0], contract)
         case None => 0
         case Some(comparison) => comparison
  }

  function DocumentId(document: Document): string {
    if "id" in document && document["id"].Text? then document["id"].text else ""
  }

  predicate Precedes(c: Comparers, o: Ordering, x: Document, y: Document) {
    var comparison := CompareSort(c, x, y, o.path, o.attribute);
    var broken := if comparison == 0 then CompareText(DocumentId(x), DocumentId(y)) else comparison;
    if o.descending then broken > 0 else broken < 0
  }

  /** The value a document is sorted by can be compared. */
  predicate Keyed(c: Comparers, o: Ordering, d: Document) {
    SortValues(d, o.path) != [] && KeyOf(c, o.attribute, SortValues(d, o.path)[0]).Some?
  }

  function SortKey(c: Comparers, o: Ordering, d: Document): Key
    requires Keyed(c, o, d)
  {
    KeyOf(c, o.attribute, SortValues(d, o.path)[0]).value
  }

  /** There is a value, and it cannot be compared. */
  predicate Odd(c: Comparers, o: Ordering, d: Document) {
    SortValues(d, o.path) != [] && KeyOf(c, o.attribute, SortValues(d, o.path)[0]).None?
  }

  ghost predicate DistinctDocumentIds(s: seq<Document>) {
    forall x, y | x in s && y in s && DocumentId(x) == DocumentId(y) :: x == y
  }

  /** The values of x and z are in one order, and the IDs put them in the other with y, whose value
      ties with both, between them. */
  predicate Crossed(c: Comparers, o: Ordering, x: Document, y: Document, z: Document) {
    && Keyed(c, o, x) && Odd(c, o, y) && Keyed(c, o, z) && Before(SortKey(c, o, x), SortKey(c, o, z))
    && CompareText(DocumentId(z), DocumentId(y)) < 0 && CompareText(DocumentId(y), DocumentId(x)) < 0
  }

  ghost predicate Uncrossed(c: Comparers, o: Ordering, s: seq<Document>) {
    forall x, y, z | x in s && y in s && z in s :: !Crossed(c, o, x, y, z)
  }

  ghost predicate Orderly(c: Comparers, o: Ordering, s: seq<Document>) {
    DistinctDocumentIds(s) && Distinct(s) && Uncrossed(c, o, s)
  }

  function Compared(c: Comparers, o: Ordering, x: Document, y: Document): int {
    CompareSort(c, x, y, o.path, o.attribute)
  }

  /** Missing values are last, keyed ones go by their keys, and all else ties. */
  lemma ComparedIs(c: Comparers, o: Ordering, x: Document, y: Document)
    ensures Keyed(c, o, x) && Keyed(c, o, y) ==>
      && (Compared(c, o, x, y) < 0 <==> Before(SortKey(c, o, x), SortKey(c, o, y)))
      && (Compared(c, o, x, y) > 0 <==> Before(SortKey(c, o, y), SortKey(c, o, x)))
    ensures (Odd(c, o, x) && !Missing(o, y)) || (Odd(c, o, y) && !Missing(o, x)) ==> Compared(c, o, x, y) == 0
    ensures Missing(o, x) && Missing(o, y) ==> Compared(c, o, x, y) == 0
    ensures Missing(o, x) && !Missing(o, y) ==> Compared(c, o, x, y) > 0
    ensures !Missing(o, x) && Missing(o, y) ==> Compared(c, o, x, y) < 0
    ensures Missing(o, x) || Keyed(c, o, x) || Odd(c, o, x)
  {
    hide OrderValues, KeyOf, SortValues;
    if !Missing(o, x) && !Missing(o, y) {
      OrderFollowsKeys(c, SortValues(x, o.path)[0], SortValues(y, o.path)[0], o.attribute);
    }
  }

  predicate Missing(o: Ordering, d: Document) { SortValues(d, o.path) == [] }

  lemma ComparedIsAntisymmetric(c: Comparers, o: Ordering, x: Document, y: Document)
    ensures Compared(c, o, x, y) < 0 <==> Compared(c, o, y, x) > 0
    ensures Compared(c, o, x, y) == 0 <==> Compared(c, o, y, x) == 0
  {
    hide Compared, Keyed, Odd, Missing, SortKey, Before;
    ComparedIs(c, o, x, y);
    ComparedIs(c, o, y, x);
  }

  /** The ascending order of two documents: by value, and among ties by ID. */
  predicate Ascends(c: Comparers, o: Ordering, x: Document, y: Document) {
    Compared(c, o, x, y) < 0 || (Compared(c, o, x, y) == 0 && CompareText(DocumentId(x), DocumentId(y)) < 0)
  }

  lemma PrecedesIs(c: Comparers, o: Ordering, x: Document, y: Document)
    ensures Precedes(c, o, x, y) <==> if o.descending then Ascends(c, o, y, x) else Ascends(c, o, x, y)
  {
    hide CompareSort;
    assert Compared(c, o, x, y) == CompareSort(c, x, y, o.path, o.attribute);
    hide Compared;
    ComparedIsAntisymmetric(c, o, x, y);
    CompareTextAntisymmetric(DocumentId(x), DocumentId(y));
  }

  lemma AscendsIsTotal(c: Comparers, o: Ordering, x: Document, y: Document)
    ensures !(Ascends(c, o, x, y) && Ascends(c, o, y, x))
    ensures DocumentId(x) != DocumentId(y) ==> Ascends(c, o, x, y) || Ascends(c, o, y, x)
  {
    hide Compared;
    ComparedIsAntisymmetric(c, o, x, y);
    CompareTextAntisymmetric(DocumentId(x), DocumentId(y));
  }

  lemma KeysCompare(c: Comparers, o: Ordering, x: Document, y: Document, z: Document)
    requires Keyed(c, o, x) && Keyed(c, o, y) && Keyed(c, o, z)
    ensures var a, b, d := SortKey(c, o, x), SortKey(c, o, y), SortKey(c, o, z);
      && (Before(a, b) ==> !Before(b, a)) && (Before(a, b) || a == b || Before(b, a))
      && (Before(a, b) && Before(b, d) ==> Before(a, d))
  {
    hide KeyOf, Before, SortValues;
    KeysAreOrdered(c, o.attribute, SortValues(x, o.path)[0], SortValues(y, o.path)[0], SortValues(z, o.path)[0]);
  }

  lemma IdsCompare(i: string, j: string, k: string)
    ensures CompareText(i, j) == -CompareText(j, i)
    ensures CompareText(i, j) == 0 <==> i == j
    ensures CompareText(i, j) < 0 && CompareText(j, k) < 0 ==> CompareText(i, k) < 0
  {
    CompareTextAntisymmetric(i, j);
    if CompareText(i, j) < 0 && CompareText(j, k) < 0 {
      CompareTextTransitive(i, j, k);
    }
  }

  lemma AscendsIsTransitive(c: Comparers, o: Ordering, x: Document, y: Document, z: Document)
    requires !Crossed(c, o, z, y, x) && !Crossed(c, o, y, x, z) && !Crossed(c, o, y, z, x)
    requires !Crossed(c, o, x, z, y) && !Crossed(c, o, z, x, y)
    requires DocumentId(x) == DocumentId(z) ==> x == z
    requires Ascends(c, o, x, y) && Ascends(c, o, y, z)
    ensures Ascends(c, o, x, z)
  {
    hide Compared, Keyed, Odd, Missing, SortKey, Before, CompareText;
    var i, j, k := DocumentId(x), DocumentId(y), DocumentId(z);
    ComparedIs(c, o, x, y);
    ComparedIs(c, o, y, z);
    ComparedIs(c, o, x, z);
    ComparedIs(c, o, z, x);
    IdsCompare(i, j, k);
    IdsCompare(j, k, i);
    IdsCompare(k, i, j);
    IdsCompare(i, k, j);
    OddIsNotKeyed(c, o, x);
    OddIsNotKeyed(c, o, y);
    OddIsNotKeyed(c, o, z);
    if Keyed(c, o, x) && Keyed(c, o, y) && Keyed(c, o, z) {
      KeysCompare(c, o, x, y, z);
      KeysCompare(c, o, z, x, y);
      KeysCompare(c, o, y, z, x);
    } else if Keyed(c, o, x) && Keyed(c, o, z) {
      KeysCompare(c, o, x, z, x);
    } else if Keyed(c, o, x) && Keyed(c, o, y) {
      KeysCompare(c, o, x, y, x);
    } else if Keyed(c, o, y) && Keyed(c, o, z) {
      KeysCompare(c, o, y, z, y);
    }
  }

  lemma OddIsNotKeyed(c: Comparers, o: Ordering, d: Document)
    ensures !(Odd(c, o, d) && Keyed(c, o, d)) && !(Odd(c, o, d) && Missing(o, d)) && !(Keyed(c, o, d) && Missing(o, d))
  {
  }

  function Comparator(c: Comparers, o: Ordering): (Document, Document) -> bool { (x, y) => Precedes(c, o, x, y) }

  lemma UncrossedIsStrictTotal(c: Comparers, o: Ordering, s: seq<Document>)
    requires DistinctDocumentIds(s) && Uncrossed(c, o, s)
    ensures StrictTotalOn(Comparator(c, o), s)
  {
    hide Precedes, Crossed, Ascends;
    var less := Comparator(c, o);
    forall x, y | x in s && y in s
      ensures !less(x, x) && (less(x, y) ==> !less(y, x)) && (x != y ==> less(x, y) || less(y, x))
    {
      PrecedesIs(c, o, x, y);
      PrecedesIs(c, o, y, x);
      PrecedesIs(c, o, x, x);
      AscendsIsTotal(c, o, x, y);
      AscendsIsTotal(c, o, x, x);
    }
    forall x, y, z | x in s && y in s && z in s && less(x, y) && less(y, z)
      ensures less(x, z)
    {
      PrecedesIs(c, o, x, y);
      PrecedesIs(c, o, y, z);
      PrecedesIs(c, o, x, z);
      if o.descending {
        AscendsIsTransitive(c, o, z, y, x);
      } else {
        AscendsIsTransitive(c, o, x, y, z);
      }
    }
  }

  /** Three crossed documents follow each other in a circle. */
  lemma CrossedIsACycle(c: Comparers, o: Ordering, x: Document, y: Document, z: Document)
    ensures Crossed(c, o, x, y, z) ==>
      if o.descending then Precedes(c, o, x, y) && Precedes(c, o, y, z) && Precedes(c, o, z, x)
      else Precedes(c, o, x, z) && Precedes(c, o, z, y) && Precedes(c, o, y, x)
  {
    ComparedIs(c, o, x, z);
    ComparedIs(c, o, z, y);
    ComparedIs(c, o, y, x);
    OddIsNotKeyed(c, o, x);
    OddIsNotKeyed(c, o, y);
    OddIsNotKeyed(c, o, z);
    hide Compared, Keyed, Odd, Missing, SortKey, Precedes;
    PrecedesIs(c, o, x, z);
    PrecedesIs(c, o, z, x);
    PrecedesIs(c, o, z, y);
    PrecedesIs(c, o, y, z);
    PrecedesIs(c, o, y, x);
    PrecedesIs(c, o, x, y);
  }

  lemma NoCircle<T(!new)>(less: (T, T) -> bool, s: seq<T>, x: T, y: T, z: T)
    requires StrictTotalOn(less, s) && x in s && y in s && z in s
    ensures !(less(x, y) && less(y, z) && less(z, x))
  {
    if less(x, y) && less(y, z) {
      assert less(x, z);
    }
  }

  /** For distinct IDs the comparator is a strict total order exactly when no three documents are
      crossed; in particular when every value is missing or can be compared. */
  lemma ComparatorIsStrictTotal(c: Comparers, o: Ordering, s: seq<Document>)
    requires DistinctDocumentIds(s)
    ensures StrictTotalOn(Comparator(c, o), s) <==> Uncrossed(c, o, s)
    ensures (forall d | d in s :: !Odd(c, o, d)) ==> StrictTotalOn(Comparator(c, o), s)
  {
    if Uncrossed(c, o, s) {
      UncrossedIsStrictTotal(c, o, s);
    }
    if StrictTotalOn(Comparator(c, o), s) {
      hide Crossed, Precedes, StrictTotalOn;
      forall x, y, z | x in s && y in s && z in s
        ensures !Crossed(c, o, x, y, z)
      {
        CrossedIsACycle(c, o, x, y, z);
        NoCircle(Comparator(c, o), s, x, y, z);
        NoCircle(Comparator(c, o), s, x, z, y);
      }
    }
  }

  lemma TopLevelSortValue(d: Document, name: string)
    requires name in d && !d[name].Array?
    ensures SortValues(d, [name]) == [d[name]]
  {
    assert [name][1..] == [];
    assert Descend([d[name]], []) == [d[name]];
    assert [d[name]][..0] == [] && Flatten([d[name]]) == Flatten([d[name]][..0]) + [d[name]];
  }

  // ---------- filtering, sorting and paging ----------

  ghost predicate Matches(c: Comparers, filter: Option<Bound>, d: Document) {
    filter.None? || Holds(c, filter.value, d)
  }

  ghost function Kept(c: Comparers, filter: Option<Bound>, s: seq<Document>): (r: seq<Document>)
    ensures |r| <= |s|
    ensures forall d :: d in r <==> d in s && Matches(c, filter, d)
  {
    if s == [] then []
    else
      var last := s[|s| - 1];
      assert forall d :: d in s <==> d in s[..|s| - 1] || d == last;
      Kept(c, filter, s[..|s| - 1]) + if Matches(c, filter, last) then [last] else []
  }

  function Ranked(c: Comparers, o: Ordering, s: seq<Document>): (r: seq<Document>)
    ensures multiset(r) == multiset(s)
  {
    if o.path == [] then s else Sort(Comparator(c, o), s)
  }

  function Page(start: int, count: nat, s: seq<Document>): seq<Document>
    requires start >= 1
  {
    var begin := if start - 1 > |s| then |s| else start - 1;
    s[begin..if begin + count > |s| then |s| else begin + count]
  }

  lemma KeptNone(c: Comparers, filter: Option<Bound>, s: seq<Document>)
    ensures Kept(c, filter, s[..0]) == []
  {
  }

  lemma KeptStep(c: Comparers, filter: Option<Bound>, s: seq<Document>, i: nat)
    requires i < |s|
    ensures Kept(c, filter, s[..i + 1]) == Kept(c, filter, s[..i]) + if Matches(c, filter, s[i]) then [s[i]] else []
  {
    assert s[..i + 1][..i] == s[..i];
  }

  lemma MatchesIs(c: Comparers, filter: Option<Bound>, d: Document)
    ensures Matches(c, filter, d) == (filter.None? || Holds(c, filter.value, d))
  {
  }

  /** Moves the matches to the front of the array that holds the candidates. */
  method KeepMatches(c: Comparers, filter: Option<Bound>, resources: array<Document>) returns (total: nat)
    requires filter.Some? ==> WellTyped(c, filter.value)
    modifies resources
    ensures total <= resources.Length
    ensures resources[..total] == Kept(c, filter, old(resources[..]))
  {
    hide Holds, WellTyped, Kept, Matches;
    ghost var candidates, kept := resources[..], [];
    assert kept == Kept(c, filter, candidates[..0]) by {
      KeptNone(c, filter, candidates);
    }
    total := 0;
    for i := 0 to resources.Length
      invariant |kept| == total <= i && kept == Kept(c, filter, candidates[..i])
      invariant forall k | 0 <= k < total :: resources[k] == kept[k]
      invariant forall k | i <= k < resources.Length :: resources[k] == candidates[k]
    {
      KeptStep(c, filter, candidates, i);
      var matched := Some(true);
      if filter.Some? {
        matched := Match(c, filter.value, resources[i]);
      }
      MatchesIs(c, filter, resources[i]);
      if matched.value {
        kept := kept + [resources[i]];
        resources[total] := resources[i];
        total := total + 1;
      }
    }
    assert candidates[..resources.Length] == candidates;
  }

  /** The stable library sort of the first n elements. */
  method SortFront(c: Comparers, o: Ordering, resources: array<Document>, n: nat)
    requires n <= resources.Length && o.path != []
    modifies resources
    ensures resources[..n] == Ranked(c, o, old(resources[..n]))
  {
    hide Sort, Precedes;
    var sorted := Sort(Comparator(c, o), resources[..n]);
    SameElements(sorted, resources[..n]);
    for i := 0 to n
      invariant forall k | 0 <= k < i :: resources[k] == sorted[k]
    {
      resources[i] := sorted[i];
    }
    assert resources[..n] == sorted;
  }

  /** Filters, sorts and pages, all within the array that holds the candidates. */
  method ApplySearch(c: Comparers, plan: Plan, resources: array<Document>) returns (page: seq<Document>, total: nat)
    requires plan.start >= 1 && plan.count >= 0
    requires plan.filter.Some? ==> WellTyped(c, plan.filter.value)
    modifies resources
    ensures var kept := Kept(c, plan.filter, old(resources[..]));
      page == Page(plan.start, plan.count, Ranked(c, plan.order, kept)) && total == |kept|
  {
    hide Kept, WellTyped, Sort, Precedes;
    total := KeepMatches(c, plan.filter, resources);
    ghost var kept := resources[..total];
    if plan.order.path != [] {
      SortFront(c, plan.order, resources, total);
    }
    var filtered := resources[..total];
    var begin := plan.start - 1;
    if begin > total {
      begin := total;
    }
    var end := begin + plan.count;
    if end > total {
      end := total;
    }
    page := filtered[begin..end];
  }

  // ---------- what a search returns ----------

  lemma {:induction false} KeptIgnoresOrder(c: Comparers, filter: Option<Bound>, s: seq<Document>, d: Document)
    ensures multiset(Kept(c, filter, s))[d] == if Matches(c, filter, d) then multiset(s)[d] else 0
  {
    if s != [] {
      assert s == s[..|s| - 1] + [s[|s| - 1]];
      KeptIgnoresOrder(c, filter, s[..|s| - 1], d);
    }
  }

  lemma KeptIsOrderly(c: Comparers, plan: Plan, s: seq<Document>)
    requires Orderly(c, plan.order, s)
    ensures Orderly(c, plan.order, Kept(c, plan.filter, s))
  {
    hide Crossed, Matches;
    var kept := Kept(c, plan.filter, s);
    DistinctCounts(s);
    forall d | d in kept
      ensures multiset(kept)[d] == 1
    {
      KeptIgnoresOrder(c, plan.filter, s, d);
    }
    DistinctCounts(kept);
  }

  /** Neither the page nor the total depends on the order the candidates arrive in. */
  lemma ResultIgnoresCandidateOrder(c: Comparers, plan: Plan, s: seq<Document>, t: seq<Document>)
    requires plan.order.path != [] && Orderly(c, plan.order, s) && multiset(s) == multiset(t)
    ensures |Kept(c, plan.filter, s)| == |Kept(c, plan.filter, t)|
    ensures Ranked(c, plan.order, Kept(c, plan.filter, s)) == Ranked(c, plan.order, Kept(c, plan.filter, t))
  {
    hide Uncrossed, Matches, Precedes;
    var a, b := Kept(c, plan.filter, s), Kept(c, plan.filter, t);
    forall d
      ensures multiset(a)[d] == multiset(b)[d]
    {
      KeptIgnoresOrder(c, plan.filter, s, d);
      KeptIgnoresOrder(c, plan.filter, t, d);
    }
    assert multiset(a) == multiset(b);
    SameElements(a, b);
    KeptIsOrderly(c, plan, s);
    ComparatorIsStrictTotal(c, plan.order, a);
    SortIgnoresInputOrder(Comparator(c, plan.order), a, b);
  }

  /** A descending result is the ascending one read backwards, missing values included. */
  lemma DescendingIsAscendingReversed(c: Comparers, up: Ordering, down: Ordering, s: seq<Document>)
    requires up.path != [] && !up.descending && down == up.(descending := true) && Orderly(c, up, s)
    ensures Ranked(c, down, s) == Reversed(Ranked(c, up, s))
  {
    hide Uncrossed, Ascends, Precedes;
    ComparatorIsStrictTotal(c, up, s);
    forall x, y | x in s && y in s
      ensures Precedes(c, down, x, y) <==> Precedes(c, up, y, x)
    {
      PrecedesIs(c, down, x, y);
      PrecedesIs(c, up, y, x);
      AscendsEitherWay(c, up, down, y, x);
    }
    ConverseSortsBackwards(Comparator(c, up), Comparator(c, down), s);
  }

  lemma AscendsEitherWay(c: Comparers, up: Ordering, down: Ordering, x: Document, y: Document)
    requires down == up.(descending := true)
    ensures Ascends(c, up, x, y) <==> Ascends(c, down, x, y)
  {
  }

  /** The first n pages of one size, one after another. */
  function Pages(count: nat, n: nat, s: seq<Document>): seq<Document> {
    if n == 0 then [] else Pages(count, n - 1, s) + Page(1 + (n - 1) * count, count, s)
  }

  lemma {:induction false} PagesAreAPrefix(count: nat, n: nat, s: seq<Document>)
    ensures Pages(count, n, s) == s[..if n * count > |s| then |s| else n * count]
  {
    if n > 0 {
      PagesAreAPrefix(count, n - 1, s);
      PageAfter((n - 1) * count, count, s);
      assert n * count == (n - 1) * count + count;
    }
  }

  lemma PageAfter(skipped: nat, count: nat, s: seq<Document>)
    ensures s[..if skipped > |s| then |s| else skipped] + Page(1 + skipped, count, s)
         == s[..if skipped + count > |s| then |s| else skipped + count]
  {
  }

  /** Consecutive pages contain every match once, in rank order, and nothing else. */
  lemma PagesConcatenateToAllMatches(c: Comparers, plan: Plan, s: seq<Document>, count: nat, n: nat)
    requires n * count >= |Kept(c, plan.filter, s)|
    ensures var kept := Kept(c, plan.filter, s);
      && Pages(count, n, Ranked(c, plan.order, kept)) == Ranked(c, plan.order, kept)
      && multiset(Pages(count, n, Ranked(c, plan.order, kept))) == multiset(kept)
  {
    var kept := Kept(c, plan.filter, s);
    SameElements(Ranked(c, plan.order, kept), kept);
    PagesAreAPrefix(count, n, Ranked(c, plan.order, kept));
  }
}
