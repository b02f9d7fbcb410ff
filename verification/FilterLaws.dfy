/** What filters say, from the names and texts as they are written: a second meaning of filters that uses
    nothing of the validator and the evaluator, and their agreement with it. */
module FilterLaws {
  import opened Values
  import opened Order
  import opened Schema
  import opened FilterSyntax
  import opened FilterMeaning

  // ---------- texts ----------

  /** Before in the dictionary: a proper prefix, or the smaller character at the first difference. */
  ghost predicate Below(s: string, t: string) {
    exists n | 0 <= n <= |s| && n < |t| :: s[..n] == t[..n] && (n == |s| || s[n] < t[n])
  }

  lemma {:induction false} CompareTextMeans(s: string, t: string)
    ensures CompareText(s, t) < 0 <==> Below(s, t)
  {
    if s == "" || t == "" {
      if t != "" {
        assert s[..0] == t[..0];
      }
    } else if s[0] == t[0] {
      CompareTextMeans(s[1..], t[1..]);
      if Below(s[1..], t[1..]) {
        var n :| 0 <= n <= |s[1..]| && n < |t[1..]| && s[1..][..n] == t[1..][..n]
          && (n == |s[1..]| || s[1..][n] < t[1..][n]);
        assert s[..n + 1] == [s[0]] + s[1..][..n] && t[..n + 1] == [t[0]] + t[1..][..n];
      }
      if Below(s, t) {
        var n :| 0 <= n <= |s| && n < |t| && s[..n] == t[..n] && (n == |s| || s[n] < t[n]);
        assert n > 0;
        assert s[1..][..n - 1] == s[..n][1..] && t[1..][..n - 1] == t[..n][1..];
      }
    } else {
      FirstsDiffer(s, t);
    }
  }

  lemma FirstsDiffer(s: string, t: string)
    requires s != "" && t != "" && s[0] != t[0]
    ensures Below(s, t) <==> s[0] < t[0]
  {
    assert s[..0] == t[..0];
    forall n | 0 < n <= |s| && n <= |t|
      ensures s[..n] != t[..n]
    {
      assert s[..n][0] == s[0] && t[..n][0] == t[0];
    }
  }

  // ---------- one comparison ----------

  /** The texts that are compared: as they are for a case-sensitive attribute, and else folded. */
  function Seen(c: Comparers, exact: bool, s: string): string { if exact then s else c.fold(s) }

  ghost predicate TextMeets(operator: string, s: string, t: string) {
    match operator
    case "eq" => s == t
    case "ne" => s != t
    case "lt" => Below(s, t)
    case "le" => Below(s, t) || s == t
    case "gt" => Below(t, s)
    case "ge" => Below(t, s) || s == t
    case "co" => exists before, after: string :: s == before + t + after
    case "sw" => exists after: string :: s == t + after
    case "ew" => exists before: string :: s == before + t
    case _ => false
  }

  predicate NumberMeets(operator: string, x: real, y: real) {
    match operator
    case "eq" => x == y
    case "ne" => x != y
    case "lt" => x < y
    case "le" => x <= y
    case "gt" => x > y
    case "ge" => x >= y
    case _ => false
  }

  /** What a comparison of a stored value with a literal says, by the type of the attribute. */
  ghost predicate Meets(c: Comparers, a: Attribute, operator: string, actual: Value, literal: Value) {
    match literal
    case Null => (operator == "eq" && actual == Null) || (operator == "ne" && actual != Null)
    case Text(t) =>
      && actual.Text?
      && (if a.kind == "dateTime" && operator !in ["co", "sw", "ew"] then
            var x, y := c.instant(actual.text), c.instant(t);
            x.Some? && y.Some? && NumberMeets(operator, x.value as real, y.value as real)
          else
            && (a.kind in ["string", "reference", "binary"] || operator in ["co", "sw", "ew"])
            && TextMeets(operator, Seen(c, a.caseExact, actual.text), Seen(c, a.caseExact, t)))
    case Number(t) =>
      && a.kind in ["integer", "decimal"] && actual.Number?
      && var x, y := c.number(actual.digits), c.number(t);
         x.Some? && y.Some? && NumberMeets(operator, x.value, y.value)
    case Bool(flag) =>
      && a.kind == "boolean" && actual.Bool?
      && NumberMeets(operator, if actual.flag then 1.0 else 0.0, if flag then 1.0 else 0.0)
    case _ => false
  }

  const OPERATORS := ["eq", "ne", "gt", "ge", "lt", "le", "co", "sw", "ew"]

  lemma TextsOrder(s: string, t: string)
    ensures CompareText(s, t) < 0 <==> Below(s, t)
    ensures CompareText(s, t) > 0 <==> Below(t, s)
    ensures CompareText(s, t) == 0 <==> s == t
  {
    CompareTextMeans(s, t);
    CompareTextMeans(t, s);
    CompareTextAntisymmetric(s, t);
  }

  lemma SearchMeets(operator: string, s: string, t: string)
    requires operator in ["co", "sw", "ew"]
    ensures TextMeets(operator, s, t) <==>
      if operator == "co" then Infix(t, s) else if operator == "sw" then t <= s else Suffix(t, s)
  {
    TextSearch(operator, s, t);
    hide Infix, Suffix;
    if operator == "sw" {
      assert t <= s ==> s == t + s[|t|..];
      forall before, after: string | s == before + t + after && before == ""
        ensures s == t + after
      {
      }
    }
    if operator == "ew" {
      forall before, after: string | s == before + t + after && after == ""
        ensures s == before + t
      {
      }
      forall before: string | s == before + t
        ensures s == before + t + ""
      {
      }
    }
  }

  /** The comparison of two values is what it says. */
  lemma ComparisonMeets(c: Comparers, a: Attribute, operator: string, actual: Value, literal: Value)
    requires operator in OPERATORS
    ensures CompareValue(c, actual, literal, a, operator) == Some(Meets(c, a, operator, actual, literal))
  {
    if actual.Text? && literal.Text? {
      var s, t := Seen(c, a.caseExact, actual.text), Seen(c, a.caseExact, literal.text);
      TextsOrder(s, t);
      if operator in ["co", "sw", "ew"] {
        SearchMeets(operator, s, t);
      }
    }
    hide Infix, Suffix, CompareText, Below;
  }

  // ---------- case ----------

  /** Where case does not matter, texts that fold the same are the same: on either side, under every
      operator and in sorting. */
  lemma FoldingIsInvisible(c: Comparers, a: Attribute, operator: string, actual: string, same: string, literal: string,
                           alike: string)
    requires !a.caseExact && a.kind != "dateTime" && operator in OPERATORS
    requires c.fold(actual) == c.fold(same) && c.fold(literal) == c.fold(alike)
    ensures CompareValue(c, Text(actual), Text(literal), a, operator)
         == CompareValue(c, Text(same), Text(alike), a, operator)
    ensures OrderValues(c, Text(actual), Text(literal), a) == OrderValues(c, Text(same), Text(alike), a)
  {
    ComparisonMeets(c, a, operator, Text(actual), Text(literal));
    ComparisonMeets(c, a, operator, Text(same), Text(alike));
    hide TextMeets, CompareValue;
  }

  /** Two values are sorted as the comparison operators say, and tie when these do not apply. */
  lemma SortingMeets(c: Comparers, a: Attribute, x: Value, y: Value)
    ensures var r := OrderValues(c, x, y, a);
      && (r.Some? && r.value < 0 <==> Meets(c, a, "lt", x, y))
      && (r.Some? && r.value == 0 <==> Meets(c, a, "eq", x, y) && !x.Null?)
      && (r.Some? && r.value > 0 <==> Meets(c, a, "gt", x, y))
  {
    ComparisonMeets(c, a, "lt", x, y);
    ComparisonMeets(c, a, "eq", x, y);
    ComparisonMeets(c, a, "gt", x, y);
    hide Meets;
  }

  /** An equality on a text attribute, where case does not matter and where it does. */
  lemma EqualityOfTexts(c: Comparers, target: Target, literal: string, document: Document)
    requires target.contract.kind in ["string", "reference", "binary"]
    ensures Holds(c, BoundCompare("eq", target, Text(literal)), document) <==>
      exists s: string :: At(document, target.path, Text(s))
        && if target.contract.caseExact then s == literal else c.fold(s) == c.fold(literal)
  {
    hide At;
    forall x
      ensures Compares(c, "eq", x, Text(literal), target.contract) <==>
        Meets(c, target.contract, "eq", x, Text(literal))
    {
      CompareValueMeans(c, x, Text(literal), target.contract, "eq");
      ComparisonMeets(c, target.contract, "eq", x, Text(literal));
    }
    hide Compares;
    forall x | At(document, target.path, x) && Meets(c, target.contract, "eq", x, Text(literal))
      ensures x == Text(x.text)
    {
    }
  }

  // ---------- whole filters ----------

  /** What a filter says of a document: names are looked up where they stand, and each comparison is what
      it says. Nothing is said by a filter with an unknown name. */
  ghost predicate Says(c: Comparers, root: string -> Option<Target>, scope: seq<Attribute>, f: Filter,
                       document: Document)
    decreases f
  {
    match f
    case And(left, right) => Says(c, root, scope, left, document) && Says(c, root, scope, right, document)
    case Or(left, right) => Says(c, root, scope, left, document) || Says(c, root, scope, right, document)
    case Not(child) => !Says(c, root, scope, child, document)
    case ValuePath(name, child) =>
      exists t, x :: Names(c, root, scope, name, t) && At(document, t.path, x) && x.Object?
        && Says(c, root, t.contract.subAttributes, child, x.fields)
    case Present(name) =>
      exists t, x :: Names(c, root, scope, name, t) && At(document, t.path, x)
        && x != Null && x != Text("") && x != Array([]) && x != Object(map[])
    case Compare(operator, name, literal) =>
      exists t, x :: Names(c, root, scope, name, t) && At(document, t.path, x)
        && Meets(c, t.contract, operator, x, literal)
  }

  /** The name stands for this attribute: among the sub-attributes inside brackets, if there are any. */
  predicate Names(c: Comparers, root: string -> Option<Target>, scope: seq<Attribute>, name: string, t: Target) {
    if scope == [] then root(name) == Some(t) else ResolveFrom(c.fold, scope, name, []) == Some(t)
  }

  /** The literal is one the attribute and the operator can be compared with. */
  predicate Fits(c: Comparers, a: Attribute, operator: string, literal: Value) {
    match literal
    case Null => operator in ["eq", "ne"]
    case Bool(_) => a.kind == "boolean" && operator in ["eq", "ne"]
    case Number(t) =>
      && a.kind in ["integer", "decimal"] && operator !in ["co", "sw", "ew"] && c.number(t).Some?
      && (a.kind == "integer" ==> c.number(t).value.Floor as real == c.number(t).value)
    case Text(t) =>
      || a.kind in ["string", "reference"]
      || (a.kind == "binary" && operator in ["eq", "ne"])
      || (a.kind == "dateTime" && operator !in ["co", "sw", "ew"] && c.instant(t).Some?)
    case _ => false
  }

  /** Every name is known, every literal fits, and brackets stand behind multi-valued complex attributes. */
  ghost predicate Acceptable(c: Comparers, root: string -> Option<Target>, scope: seq<Attribute>, f: Filter)
    decreases f
  {
    match f
    case And(left, right) => Acceptable(c, root, scope, left) && Acceptable(c, root, scope, right)
    case Or(left, right) => Acceptable(c, root, scope, left) && Acceptable(c, root, scope, right)
    case Not(child) => Acceptable(c, root, scope, child)
    case ValuePath(name, child) =>
      exists t :: Names(c, root, scope, name, t) && t.contract.multiValued && t.contract.kind == "complex"
        && Acceptable(c, root, t.contract.subAttributes, child)
    case Present(name) => exists t :: Names(c, root, scope, name, t)
    case Compare(operator, name, literal) =>
      exists t :: Names(c, root, scope, name, t) && Fits(c, t.contract, operator, literal)
  }

  lemma FitsIsCompatible(c: Comparers, a: Attribute, operator: string, literal: Value)
    requires operator in OPERATORS
    ensures Compatible(c, a, operator, literal) <==> Fits(c, a, operator, literal)
  {
  }

  /** A filter with supported operators is accepted exactly when it is acceptable. */
  lemma {:induction false} ValidationAcceptsExactly(c: Comparers, root: string -> Option<Target>, scope: seq<Attribute>,
                                                    f: Filter)
    requires KnownOperators(f)
    ensures Validate(c, root, scope, f).Some? <==> Acceptable(c, root, scope, f)
    decreases f
  {
    hide Compatible, Fits, ResolveFrom;
    match f
    case And(left, right) =>
      ValidationAcceptsExactly(c, root, scope, left);
      ValidationAcceptsExactly(c, root, scope, right);
    case Or(left, right) =>
      ValidationAcceptsExactly(c, root, scope, left);
      ValidationAcceptsExactly(c, root, scope, right);
    case Not(child) => ValidationAcceptsExactly(c, root, scope, child);
    case ValuePath(name, child) =>
      var target := Resolve(c.fold, root, scope, name);
      if target.Some? {
        ValidationAcceptsExactly(c, root, target.value.contract.subAttributes, child);
        assert Names(c, root, scope, name, target.value);
      }
    case Present(name) =>
      var target := Resolve(c.fold, root, scope, name);
      assert target.Some? ==> Names(c, root, scope, name, target.value);
    case Compare(operator, name, literal) =>
      var target := Resolve(c.fold, root, scope, name);
      if target.Some? {
        FitsIsCompatible(c, target.value.contract, operator, literal);
        assert Names(c, root, scope, name, target.value);
      }
  }

  /** And an accepted filter is evaluated to what it says. */
  lemma {:induction false} FiltersMeanWhatTheySay(c: Comparers, root: string -> Option<Target>, scope: seq<Attribute>,
                                                  f: Filter, document: Document)
    requires KnownOperators(f) && Validate(c, root, scope, f).Some?
    ensures Holds(c, Validate(c, root, scope, f).value, document) <==> Says(c, root, scope, f, document)
    decreases f
  {
    hide Compatible, ResolveFrom, At, Meets, Compares;
    match f
    case And(left, right) =>
      FiltersMeanWhatTheySay(c, root, scope, left, document);
      FiltersMeanWhatTheySay(c, root, scope, right, document);
    case Or(left, right) =>
      FiltersMeanWhatTheySay(c, root, scope, left, document);
      FiltersMeanWhatTheySay(c, root, scope, right, document);
    case Not(child) => FiltersMeanWhatTheySay(c, root, scope, child, document);
    case ValuePath(name, child) =>
      var t := Resolve(c.fold, root, scope, name).value;
      var b := Validate(c, root, t.contract.subAttributes, child).value;
      forall x: Value | x.Object?
        ensures Holds(c, b, x.fields) <==> Says(c, root, t.contract.subAttributes, child, x.fields)
      {
        FiltersMeanWhatTheySay(c, root, t.contract.subAttributes, child, x.fields);
      }
      assert Names(c, root, scope, name, t);
    case Present(name) =>
      assert Names(c, root, scope, name, Resolve(c.fold, root, scope, name).value);
    case Compare(operator, name, literal) =>
      var t := Resolve(c.fold, root, scope, name).value;
      assert Names(c, root, scope, name, t);
      forall x
        ensures Compares(c, operator, x, literal, t.contract) <==> Meets(c, t.contract, operator, x, literal)
      {
        SupportedOperator(operator);
        CompareValueMeans(c, x, literal, t.contract, operator);
        ComparisonMeets(c, t.contract, operator, x, literal);
      }
  }

  lemma SupportedOperator(operator: string)
    requires operator in COMPARISONS
    ensures operator in OPERATORS
  {
  }
}
