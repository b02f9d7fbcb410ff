/** Byte-wise text comparison and sorting by a strict order. */
module Order {

  // ---------- text ----------

  /** -1, 0 or 1 as a comes before, equals or follows b, character by character. */
  function CompareText(a: string, b: string): (c: int)
    ensures c == -1 || c == 0 || c == 1
  {
    if a == [] then (if b == [] then 0 else -1)
    else if b == [] then 1
    else if a[0] < b[0] then -1
    else if a[0] > b[0] then 1
    else CompareText(a[1..], b[1..])
  }

  lemma {:induction false} CompareTextAntisymmetric(a: string, b: string)
    ensures CompareText(a, b) == -CompareText(b, a)
    ensures CompareText(a, b) == 0 <==> a == b
  {
    if a != [] && b != [] && a[0] == b[0] {
      CompareTextAntisymmetric(a[1..], b[1..]);
      assert a == [a[0]] + a[1..] && b == [b[0]] + b[1..];
    }
  }

  lemma {:induction false} CompareTextTransitive(a: string, b: string, c: string)
    requires CompareText(a, b) <= 0 && CompareText(b, c) <= 0
    ensures CompareText(a, c) <= 0
    ensures CompareText(a, c) == 0 ==> CompareText(a, b) == 0 && CompareText(b, c) == 0
  {
    if a != [] && b != [] && c != [] && a[0] == b[0] == c[0] {
      CompareTextTransitive(a[1..], b[1..], c[1..]);
    }
  }

  // ---------- sorting ----------

  ghost predicate Distinct<T>(s: seq<T>) {
    forall i, j | 0 <= i < j < |s| :: s[i] != s[j]
  }

  /** A strict total order on the elements of s. */
  ghost predicate StrictTotalOn<T(!new)>(less: (T, T) -> bool, s: seq<T>) {
    && (forall x | x in s :: !less(x, x))
    && (forall x, y | x in s && y in s && less(x, y) :: !less(y, x))
    && (forall x, y | x in s && y in s && x != y :: less(x, y) || less(y, x))
    && (forall x, y, z | x in s && y in s && z in s && less(x, y) && less(y, z) :: less(x, z))
  }

  ghost predicate Sorted<T>(less: (T, T) -> bool, s: seq<T>) {
    forall i, j | 0 <= i < j < |s| :: less(s[i], s[j])
  }

  /** Insertion into a sorted sequence, after everything the new element does not precede. */
  function Insert<T>(less: (T, T) -> bool, x: T, s: seq<T>): (r: seq<T>)
    ensures multiset(r) == multiset(s) + multiset{x}
  {
    if s == [] then [x]
    else if less(x, s[0]) then
      assert [x] + s == [x] + s;
      [x] + s
    else
      assert s == [s[0]] + s[1..];
      [s[0]] + Insert(less, x, s[1..])
  }

  /** The library sort: a stable sort by less. */
  function Sort<T>(less: (T, T) -> bool, s: seq<T>): (r: seq<T>)
    ensures multiset(r) == multiset(s)
  {
    if s == [] then []
    else
      assert s == s[..|s| - 1] + [s[|s| - 1]];
      Insert(less, s[|s| - 1], Sort(less, s[..|s| - 1]))
  }

  lemma SameElements<T>(a: seq<T>, b: seq<T>)
    requires multiset(a) == multiset(b)
    ensures |a| == |b|
    ensures forall x :: x in a <==> x in b
  {
    assert |a| == |multiset(a)| == |multiset(b)| == |b|;
    forall x
      ensures x in a <==> x in b
    {
      assert x in a <==> x in multiset(a);
      assert x in b <==> x in multiset(b);
    }
  }

  lemma {:induction false} InsertKeepsSorted<T(!new)>(less: (T, T) -> bool, x: T, s: seq<T>)
    requires StrictTotalOn(less, [x] + s) && Sorted(less, s) && x !in s
    ensures Sorted(less, Insert(less, x, s))
  {
    assert forall y | y in s :: y in [x] + s;
    assert x in [x] + s;
    if s != [] && !less(x, s[0]) {
      var rest := s[1..];
      assert forall y | y in [x] + rest :: y in [x] + s;
      InsertKeepsSorted(less, x, rest);
      var inserted := Insert(less, x, rest);
      SameElements(inserted, rest + [x]);
      assert less(s[0], x);
      forall j | 0 <= j < |inserted|
        ensures less(s[0], inserted[j])
      {
        assert inserted[j] in rest + [x];
        if inserted[j] in rest {
          var k :| 0 <= k < |rest| && rest[k] == inserted[j];
          assert s[k + 1] == inserted[j];
        }
      }
    } else if s != [] {
      forall j | 0 <= j < |s|
        ensures less(x, s[j])
      {
        assert s[j] in [x] + s && s[0] in [x] + s;
      }
    }
  }

  /** Sorting distinct elements by a strict total order sorts them. */
  lemma {:induction false} SortSorts<T(!new)>(less: (T, T) -> bool, s: seq<T>)
    requires StrictTotalOn(less, s) && Distinct(s)
    ensures Sorted(less, Sort(less, s))
  {
    if s != [] {
      var init, last := s[..|s| - 1], s[|s| - 1];
      assert forall y | y in init :: y in s;
      SortSorts(less, init);
      var sorted := Sort(less, init);
      SameElements(sorted, init);
      forall y | y in [last] + sorted
        ensures y in s
      {
        assert y == last || y in init;
      }
      assert last !in init;
      InsertKeepsSorted(less, last, sorted);
    }
  }

  lemma HeadComesFirst<T(!new)>(less: (T, T) -> bool, s: seq<T>, x: T)
    requires Sorted(less, s) && x in s
    ensures x == s[0] || less(s[0], x)
  {
  }

  ghost predicate AsymmetricOn<T(!new)>(less: (T, T) -> bool, s: seq<T>) {
    forall x, y | x in s && y in s && less(x, y) :: !less(y, x)
  }

  /** There is only one way to list the same elements in strictly increasing order. */
  lemma {:induction false} SortedIsUnique<T(!new)>(less: (T, T) -> bool, a: seq<T>, b: seq<T>)
    requires multiset(a) == multiset(b)
    requires Sorted(less, a) && Sorted(less, b)
    requires AsymmetricOn(less, a)
    ensures a == b
  {
    SameElements(a, b);
    if a != [] {
      HeadsAgree(less, a, b);
      var x, restA, restB := a[0], a[1..], b[1..];
      assert a == [x] + restA && b == [x] + restB;
      assert multiset(restA) == multiset(a) - multiset{x};
      assert multiset(restB) == multiset(b) - multiset{x};
      TailIsSorted(less, a);
      TailIsSorted(less, b);
      hide Sorted, AsymmetricOn;
      SortedIsUnique(less, restA, restB);
    }
  }

  lemma HeadsAgree<T(!new)>(less: (T, T) -> bool, a: seq<T>, b: seq<T>)
    requires |a| == |b| > 0 && forall x :: x in a <==> x in b
    requires Sorted(less, a) && Sorted(less, b)
    requires AsymmetricOn(less, a)
    ensures a[0] == b[0]
  {
    assert a[0] in b && b[0] in a;
    HeadComesFirst(less, a, b[0]);
    HeadComesFirst(less, b, a[0]);
  }

  lemma TailIsSorted<T(!new)>(less: (T, T) -> bool, s: seq<T>)
    requires Sorted(less, s) && s != []
    ensures Sorted(less, s[1..])
    ensures AsymmetricOn(less, s) ==> AsymmetricOn(less, s[1..])
  {
  }

  /** The sorted result does not depend on the order of the input. */
  lemma SortIgnoresInputOrder<T(!new)>(less: (T, T) -> bool, s: seq<T>, t: seq<T>)
    requires StrictTotalOn(less, s) && Distinct(s) && multiset(s) == multiset(t)
    ensures Sort(less, s) == Sort(less, t)
  {
    SameElements(s, t);
    PermutationIsDistinct(s, t);
    SortSorts(less, s);
    SortSorts(less, t);
    SameElements(s, Sort(less, s));
    assert AsymmetricOn(less, Sort(less, s));
    SortedIsUnique(less, Sort(less, s), Sort(less, t));
  }

  lemma {:induction false} DistinctCounts<T>(s: seq<T>)
    ensures Distinct(s) <==> forall x | x in s :: multiset(s)[x] == 1
  {
    if s != [] {
      var init, last := s[..|s| - 1], s[|s| - 1];
      assert s == init + [last];
      DistinctCounts(init);
      if Distinct(s) {
        assert last !in init;
      } else if forall x | x in s :: multiset(s)[x] == 1 {
        assert multiset(s)[last] == multiset(init)[last] + 1;
        assert last !in init;
        forall x | x in init
          ensures multiset(init)[x] == 1
        {
          assert x in s;
        }
      }
    }
  }

  lemma PermutationIsDistinct<T>(s: seq<T>, t: seq<T>)
    requires Distinct(s) && multiset(s) == multiset(t)
    ensures Distinct(t)
  {
    SameElements(s, t);
    DistinctCounts(s);
    DistinctCounts(t);
  }

  /** Sorting by the converse order reverses the result. */
  function Reversed<T>(s: seq<T>): (r: seq<T>)
    ensures |r| == |s|
    ensures forall i | 0 <= i < |s| :: r[i] == s[|s| - 1 - i]
    ensures multiset(r) == multiset(s)
  {
    if s == [] then []
    else
      assert s == [s[0]] + s[1..];
      Reversed(s[1..]) + [s[0]]
  }

  lemma ConverseSortsBackwards<T(!new)>(less: (T, T) -> bool, greater: (T, T) -> bool, s: seq<T>)
    requires StrictTotalOn(less, s) && Distinct(s)
    requires forall x, y | x in s && y in s :: greater(x, y) <==> less(y, x)
    ensures Sort(greater, s) == Reversed(Sort(less, s))
  {
    SortSorts(less, s);
    ConverseIsTotal(less, greater, s);
    SortSorts(greater, s);
    var up, down := Sort(less, s), Sort(greater, s);
    SameElements(s, up);
    SameElements(s, down);
    ReversedIsSorted(less, greater, up);
    SortedIsUnique(greater, down, Reversed(up));
  }

  lemma ConverseIsTotal<T(!new)>(less: (T, T) -> bool, greater: (T, T) -> bool, s: seq<T>)
    requires StrictTotalOn(less, s)
    requires forall x, y | x in s && y in s :: greater(x, y) <==> less(y, x)
    ensures StrictTotalOn(greater, s)
  {
  }

  lemma ReversedIsSorted<T(!new)>(less: (T, T) -> bool, greater: (T, T) -> bool, s: seq<T>)
    requires Sorted(less, s)
    requires forall x, y | x in s && y in s :: greater(x, y) <==> less(y, x)
    ensures Sorted(greater, Reversed(s))
  {
    forall i, j | 0 <= i < j < |s|
      ensures greater(Reversed(s)[i], Reversed(s)[j])
    {
      assert less(s[|s| - 1 - j], s[|s| - 1 - i]);
    }
  }
}
