/** Each normalization step leaves its own results, and those of the steps before it, alone. */
module NormalFormFacts {
  import opened Values
  import opened NormalForm

  // ---------- what only takes away ----------

  /** Fewer names, fewer elements, or a scalar in place of anything. */
  ghost predicate Thinner(v: Value, w: Value)
    decreases v
  {
    || v == w || (!v.Array? && !v.Object?)
    || (v.Object? && w.Object? && forall k | k in v.fields :: k in w.fields && Thinner(v.fields[k], w.fields[k]))
    || (v.Array? && w.Array? && forall x | x in v.items :: exists y | y in w.items :: Thinner(x, y))
  }

  lemma {:induction false} ThinnerIsTransitive(u: Value, v: Value, w: Value)
    requires Thinner(u, v) && Thinner(v, w)
    ensures Thinner(u, w)
    decreases u
  {
    if u != v && v != w {
      match u
      case Object(fields) =>
        forall k | k in fields
          ensures k in w.fields && Thinner(fields[k], w.fields[k])
        {
          ThinnerIsTransitive(fields[k], v.fields[k], w.fields[k]);
        }
      case Array(items) =>
        forall x | x in items
          ensures exists z | z in w.items :: Thinner(x, z)
        {
          var y :| y in v.items && Thinner(x, y);
          var z :| z in w.items && Thinner(y, z);
          ThinnerIsTransitive(x, y, z);
        }
      case _ =>
    }
  }

  lemma OneFieldThinner(d: Document, k: string, v: Value)
    requires k in d && Thinner(v, d[k])
    ensures Thinner(Object(d[k := v]), Object(d))
  {
    assert Object(d[k := v]).fields == d[k := v];
    forall j | j in d[k := v]
      ensures j in d && Thinner(d[k := v][j], d[j])
    {
    }
  }

  lemma FewerFieldsThinner(d: Document, gone: set<string>)
    ensures Thinner(Object(d - gone), Object(d))
  {
    assert Object(d - gone).fields == d - gone;
  }

  // ---------- read-only attributes ----------

  ghost predicate Stripped(d: Document, attributes: seq<Attribute>)
    decreases attributes, 0
  {
    attributes == [] ||
    (var a := attributes[0];
     && (a.mutability == "readOnly" ==> a.name !in d)
     && (a.kind == "complex" && a.name in d ==> StrippedValue(d[a.name], a.subAttributes))
     && Stripped(d, attributes[1..]))
  }

  ghost predicate StrippedValue(v: Value, attributes: seq<Attribute>)
    decreases attributes, 1
  {
    match v
    case Object(fields) => Stripped(fields, attributes)
    case Array(items) => forall x | x in items && x.Object? :: Stripped(x.fields, attributes)
    case _ => true
  }

  lemma ThinnerObject(v: Value, w: Value)
    requires Thinner(v, w) && v.Object?
    ensures w.Object?
  {
  }

  lemma {:induction false} ThinnerIsStripped(d: Document, e: Document, attributes: seq<Attribute>)
    requires Thinner(Object(d), Object(e)) && Stripped(e, attributes)
    ensures Stripped(d, attributes)
    decreases attributes, 0
  {
    if attributes != [] {
      var a := attributes[0];
      assert Object(d).fields == d && Object(e).fields == e;
      if a.name in d && a.kind == "complex" {
        ThinnerIsStrippedValue(d[a.name], e[a.name], a.subAttributes);
      }
      ThinnerIsStripped(d, e, attributes[1..]);
    }
  }

  lemma {:induction false} ThinnerIsStrippedValue(v: Value, w: Value, attributes: seq<Attribute>)
    requires Thinner(v, w) && StrippedValue(w, attributes)
    ensures StrippedValue(v, attributes)
    decreases attributes, 1
  {
    match v
    case Object(fields) => ThinnerIsStripped(fields, w.fields, attributes);
    case Array(items) =>
      forall x | x in items && x.Object?
        ensures Stripped(x.fields, attributes)
      {
        var y :| y in w.items && Thinner(x, y);
        ThinnerObject(x, y);
        ThinnerIsStripped(x.fields, y.fields, attributes);
      }
    case _ =>
  }

  /** What stripping does for one attribute. */
  function StripOne(d: Document, a: Attribute): Document {
    if a.mutability == "readOnly" then d - {a.name}
    else if a.kind != "complex" || a.name !in d then d
    else
      match d[a.name]
      case Object(fields) => d[a.name := Object(Strip(fields, a.subAttributes))]
      case Array(items) =>
        d[a.name := Array(seq(|items|, i requires 0 <= i < |items| =>
          if items[i].Object? then Object(Strip(items[i].fields, a.subAttributes)) else items[i]))]
      case _ => d
  }

  lemma {:induction false} StripIsThinner(d: Document, attributes: seq<Attribute>)
    ensures Thinner(Object(Strip(d, attributes)), Object(d))
    decreases attributes, 1
  {
    if attributes != [] {
      StripOneIsThinner(d, attributes[0]);
      StripIsThinner(StripOne(d, attributes[0]), attributes[1..]);
      ThinnerIsTransitive(Object(Strip(d, attributes)), Object(StripOne(d, attributes[0])), Object(d));
    }
  }

  lemma {:induction false} StripOneIsThinner(d: Document, a: Attribute)
    ensures Thinner(Object(StripOne(d, a)), Object(d))
    decreases a, 0
  {
    FewerFieldsThinner(d, {a.name});
    if a.mutability != "readOnly" && a.kind == "complex" && a.name in d {
      match d[a.name]
      case Object(fields) =>
        StripIsThinner(fields, a.subAttributes);
        OneFieldThinner(d, a.name, Object(Strip(fields, a.subAttributes)));
      case Array(items) =>
        var stripped := StripOne(d, a)[a.name].items;
        forall x | x in stripped
          ensures exists y | y in items :: Thinner(x, y)
        {
          var i :| 0 <= i < |stripped| && stripped[i] == x;
          if items[i].Object? {
            StripIsThinner(items[i].fields, a.subAttributes);
          }
          assert items[i] in items && Thinner(x, items[i]);
        }
        OneFieldThinner(d, a.name, Array(stripped));
      case _ =>
    }
  }

  lemma {:induction false} StripStrips(d: Document, attributes: seq<Attribute>)
    ensures Stripped(Strip(d, attributes), attributes)
    decreases attributes, 1
  {
    if attributes != [] {
      var a, one := attributes[0], StripOne(d, attributes[0]);
      StripOneStrips(d, a);
      StripStrips(one, attributes[1..]);
      StripIsThinner(one, attributes[1..]);
      ThinnerIsStripped(Strip(one, attributes[1..]), one, [a]);
    }
  }

  lemma {:induction false} StripOneStrips(d: Document, a: Attribute)
    ensures Stripped(StripOne(d, a), [a])
    decreases a, 0
  {
    assert [a][1..] == [] && [a][0] == a && Stripped(StripOne(d, a), []);
    if a.mutability != "readOnly" && a.kind == "complex" && a.name in d {
      match d[a.name]
      case Object(fields) => StripStrips(fields, a.subAttributes);
      case Array(items) =>
        var stripped := StripOne(d, a)[a.name].items;
        forall x | x in stripped && x.Object?
          ensures Stripped(x.fields, a.subAttributes)
        {
          var i :| 0 <= i < |stripped| && stripped[i] == x;
          StripStrips(items[i].fields, a.subAttributes);
        }
      case _ =>
    }
  }

  lemma {:induction false} StrippedStays(d: Document, attributes: seq<Attribute>)
    requires Stripped(d, attributes)
    ensures Strip(d, attributes) == d
    decreases attributes, 1
  {
    if attributes != [] {
      StrippedOneStays(d, attributes[0]);
      StrippedStays(d, attributes[1..]);
    }
  }

  lemma {:induction false} StrippedOneStays(d: Document, a: Attribute)
    requires a.mutability == "readOnly" ==> a.name !in d
    requires a.kind == "complex" && a.name in d ==> StrippedValue(d[a.name], a.subAttributes)
    ensures StripOne(d, a) == d
    decreases a, 0
  {
    if a.mutability != "readOnly" && a.kind == "complex" && a.name in d {
      match d[a.name]
      case Object(fields) => StrippedStays(fields, a.subAttributes);
      case Array(items) =>
        forall i | 0 <= i < |items| && items[i].Object?
          ensures Strip(items[i].fields, a.subAttributes) == items[i].fields
        {
          assert items[i] in items;
          StrippedStays(items[i].fields, a.subAttributes);
        }
        assert StripOne(d, a)[a.name].items == items;
      case _ =>
    }
  }

  // ---------- unassigned values ----------

  lemma TidyFields(fields: Document)
    ensures Tidy(Object(fields)) == Object(fields) <==>
      forall k | k in fields :: !Unassigned(fields[k]) && Tidy(fields[k]) == fields[k]
  {
    var tidy := Tidy(Object(fields)).fields;
    assert Tidy(Object(fields)) == Object(fields) <==> tidy == fields;
    forall k | k in fields
      ensures k in tidy <==> !Unassigned(fields[k])
      ensures k in tidy ==> tidy[k] == Tidy(fields[k])
    {
    }
  }

  predicate TidyElement(v: Value) { !Blank(v) && (v.Object? ==> Tidy(v) == v) }

  lemma {:induction false} TidyElements(items: seq<Value>)
    requires forall x | x in items :: TidyElement(x)
    ensures TidyItems(items) == items
    decreases |items|
  {
    if items != [] {
      var first := items[0];
      assert first in items && TidyElement(first);
      hide Tidy, Blank;
      TidyElements(items[1..]);
    }
  }

  /** Tidied elements come from elements that are not blank, and are not blank. */
  lemma {:induction false} TidyItemsFrom(items: seq<Value>, x: Value)
    requires x in TidyItems(items)
    ensures !Blank(x) && exists y :: y in items && !Blank(y) && x == if y.Object? then Tidy(y) else y
    decreases |items|
  {
    var first := items[0];
    if x in TidyItems(items[1..]) {
      TidyItemsFrom(items[1..], x);
    } else {
      assert first in items && !Blank(first) && x == if first.Object? then Tidy(first) else first;
    }
  }

  lemma {:induction false} TidyItemsKeeps(items: seq<Value>, y: Value)
    requires y in items && !Blank(y)
    ensures TidyItems(items) != []
    decreases |items|
  {
    hide Tidy, Blank;
    if y != items[0] {
      TidyItemsKeeps(items[1..], y);
    }
  }

  lemma {:induction false} TidyIsTidy(v: Value)
    ensures Tidy(Tidy(v)) == Tidy(v)
    ensures !Unassigned(v) ==> !Unassigned(Tidy(v))
    decreases v
  {
    match v
    case Object(fields) =>
      forall k | k in fields
        ensures Tidy(Tidy(fields[k])) == Tidy(fields[k]) && (!Unassigned(fields[k]) ==> !Unassigned(Tidy(fields[k])))
      {
        TidyIsTidy(fields[k]);
      }
      TidyFields(Tidy(v).fields);
    case Array(items) => TidyItemsAreTidy(items);
    case _ =>
  }

  lemma {:induction false} TidyItemsAreTidy(items: seq<Value>)
    ensures forall x | x in TidyItems(items) :: TidyElement(x)
    ensures TidyItems(TidyItems(items)) == TidyItems(items)
    ensures !Unassigned(Array(items)) ==> !Unassigned(Array(TidyItems(items)))
    decreases items
  {
    var tidy := TidyItems(items);
    forall x | x in tidy
      ensures TidyElement(x)
    {
      TidyItemsFrom(items, x);
      var y :| y in items && !Blank(y) && x == if y.Object? then Tidy(y) else y;
      TidyIsTidy(y);
    }
    TidyElements(tidy);
    if !Unassigned(Array(items)) {
      var i :| 0 <= i < |items| && !Blank(items[i]);
      TidyItemsKeeps(items, items[i]);
      assert tidy[0] in tidy;
      assert Array(tidy).items[0] == tidy[0];
    }
  }

  lemma TidyElementsOf(items: seq<Value>)
    requires TidyItems(items) == items
    ensures forall x | x in items :: TidyElement(x)
  {
    TidyItemsAreTidy(items);
  }

  lemma {:induction false} TidyIsThinner(v: Value)
    ensures Thinner(Tidy(v), v)
    decreases v
  {
    match v
    case Object(fields) =>
      forall k | k in fields
        ensures Thinner(Tidy(fields[k]), fields[k])
      {
        TidyIsThinner(fields[k]);
      }
    case Array(items) =>
      forall x | x in TidyItems(items)
        ensures exists y | y in items :: Thinner(x, y)
      {
        TidyItemsFrom(items, x);
        var y :| y in items && !Blank(y) && x == if y.Object? then Tidy(y) else y;
        TidyIsThinner(y);
      }
    case _ =>
  }

  // ---------- primary values ----------

  lemma BalanceFields(fields: Document)
    ensures Balance(Object(fields)) == Object(fields) <==> forall k | k in fields :: Balance(fields[k]) == fields[k]
  {
    var balanced := Balance(Object(fields)).fields;
    assert Balance(Object(fields)) == Object(fields) <==> balanced == fields;
    assert forall k | k in fields :: k in balanced && balanced[k] == Balance(fields[k]);
  }

  function Balanced(items: seq<Value>): seq<Value> {
    seq(|items|, i requires 0 <= i < |items| => if items[i].Object? then Balance(items[i]) else items[i])
  }

  predicate Alone(items: seq<Value>, n: nat) {
    forall i | 0 <= i < |items| && i + 1 != n && items[i].Object? && "primary" in items[i].fields ::
      items[i].fields["primary"] == Bool(false)
  }

  lemma {:induction false} LastPrimaryIs(items: seq<Value>, n: nat)
    requires 0 < n <= |items| && IsPrimary(items[n - 1]) && forall i | n <= i < |items| :: !IsPrimary(items[i])
    ensures AfterLastPrimary(items) == n
  {
  }

  lemma OnePrimaryStays(items: seq<Value>)
    requires AfterLastPrimary(items) > 0 ==> Alone(items, AfterLastPrimary(items))
    ensures OnePrimary(items) == items
  {
    var n := AfterLastPrimary(items);
    forall i | 0 <= i < |items| && i + 1 != n && n > 0
      ensures Demoted(items[i]) == items[i]
    {
      if items[i].Object? && "primary" in items[i].fields {
        assert items[i].fields["primary" := Bool(false)] == items[i].fields;
      }
    }
  }

  lemma OnePrimaryIsAlone(items: seq<Value>)
    ensures var one := OnePrimary(items);
      && |one| == |items| && AfterLastPrimary(one) == AfterLastPrimary(items)
      && (AfterLastPrimary(items) > 0 ==> Alone(one, AfterLastPrimary(items)))
      && forall i | 0 <= i < |items| :: one[i] == items[i] || one[i] == Demoted(items[i])
  {
    var n := AfterLastPrimary(items);
    if n > 0 {
      LastPrimaryIs(OnePrimary(items), n);
    }
  }

  lemma DemotedIsQuiet(v: Value)
    requires v.Object?
    ensures Balance(v) == v ==> Balance(Demoted(v)) == Demoted(v)
    ensures Tidy(v) == v ==> Tidy(Demoted(v)) == Demoted(v)
    ensures Thinner(Demoted(v), v)
  {
    TidyFields(v.fields);
    TidyFields(Demoted(v).fields);
    BalanceFields(v.fields);
    BalanceFields(Demoted(v).fields);
    if "primary" in v.fields {
      OneFieldThinner(v.fields, "primary", Bool(false));
    }
  }

  lemma {:induction false} BalanceIsBalanced(v: Value)
    ensures Balance(Balance(v)) == Balance(v)
    decreases v
  {
    match v
    case Object(fields) =>
      forall k | k in fields
        ensures Balance(Balance(fields[k])) == Balance(fields[k])
      {
        BalanceIsBalanced(fields[k]);
      }
      BalanceFields(Balance(v).fields);
    case Array(items) =>
      var inner := Balanced(items);
      var one := OnePrimary(inner);
      OnePrimaryIsAlone(inner);
      forall i | 0 <= i < |one| && one[i].Object?
        ensures Balance(one[i]) == one[i]
      {
        BalanceIsBalanced(items[i]);
        DemotedIsQuiet(inner[i]);
      }
      assert Balanced(one) == one;
      OnePrimaryStays(one);
    case _ =>
  }

  lemma {:induction false} BalanceIsThinner(v: Value)
    ensures Thinner(Balance(v), v)
    decreases v
  {
    match v
    case Object(fields) =>
      forall k | k in fields
        ensures Thinner(Balance(fields[k]), fields[k])
      {
        BalanceIsThinner(fields[k]);
      }
    case Array(items) =>
      var inner := Balanced(items);
      var one := OnePrimary(inner);
      OnePrimaryIsAlone(inner);
      forall x | x in one
        ensures exists y | y in items :: Thinner(x, y)
      {
        var i :| 0 <= i < |one| && one[i] == x;
        if items[i].Object? {
          BalanceIsThinner(items[i]);
          DemotedIsQuiet(inner[i]);
          ThinnerIsTransitive(x, inner[i], items[i]);
        }
        assert items[i] in items && Thinner(x, items[i]);
      }
    case _ =>
  }

  /** Demotion assigns values, so what was tidy stays tidy. */
  lemma {:induction false} BalanceStaysTidy(v: Value)
    requires Tidy(v) == v
    ensures Tidy(Balance(v)) == Balance(v)
    ensures !Unassigned(v) ==> !Unassigned(Balance(v))
    decreases v
  {
    match v
    case Object(fields) =>
      TidyFields(fields);
      forall k | k in fields
        ensures Tidy(Balance(fields[k])) == Balance(fields[k]) && !Unassigned(Balance(fields[k]))
      {
        BalanceStaysTidy(fields[k]);
      }
      TidyFields(Balance(v).fields);
    case Array(items) =>
      TidyElementsOf(items);
      forall i | 0 <= i < |items| && items[i].Object?
        ensures Tidy(Balance(items[i])) == Balance(items[i])
      {
        assert items[i] in items;
        BalanceStaysTidy(items[i]);
      }
      OnePrimaryStaysTidy(items);
    case _ =>
  }

  lemma OnePrimaryStaysTidy(items: seq<Value>)
    requires forall x | x in items :: TidyElement(x)
    requires forall i | 0 <= i < |items| && items[i].Object? :: Tidy(Balance(items[i])) == Balance(items[i])
    ensures var one := OnePrimary(Balanced(items));
      Tidy(Array(one)) == Array(one) && (items != [] ==> !Unassigned(Array(one)))
  {
    hide Tidy, Balance, AfterLastPrimary;
    var inner := Balanced(items);
    var one := OnePrimary(inner);
    OnePrimaryIsAlone(inner);
    hide OnePrimary;
    forall x | x in one
      ensures TidyElement(x)
    {
      var i :| 0 <= i < |one| && one[i] == x;
      assert items[i] in items;
      if items[i].Object? {
        BalancedObject(items[i]);
        DemotedIsQuiet(inner[i]);
      }
    }
    TidyElements(one);
    TidyOfArray(one);
    assert items != [] ==> one[0] in one && Array(one).items[0] == one[0];
  }

  lemma BalancedObject(v: Value)
    ensures v.Object? ==> Balance(v).Object?
  {
  }

  lemma TidyOfArray(items: seq<Value>)
    ensures Tidy(Array(items)) == Array(TidyItems(items))
  {
  }
}
