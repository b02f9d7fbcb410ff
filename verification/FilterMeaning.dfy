/** What a filter means on a document, and the validator and evaluator that compute it. */
module FilterMeaning {
  import opened Values
  import opened Schema
  import opened FilterSyntax
  import opened FilterGrammar
  import opened Order

  /** Library functions: case folding, exact numbers and RFC 3339 instants. */
  datatype Comparers = Comparers(fold: string -> string, number: string -> Option<real>, instant: string -> Option<int>)

  // ---------- values at a path ----------

  /** One step down from v: a field of the object, or the same field of each object in the array. */
  ghost predicate Child(v: Value, part: string, x: Value) {
    || (v.Object? && part in v.fields && x == v.fields[part])
    || (v.Array? && exists item | item in v.items :: item.Object? && part in item.fields && x == item.fields[part])
  }

  ghost predicate Reaches(v: Value, path: seq<string>, x: Value) {
    if path == [] then x == v else exists y :: Child(v, path[0], y) && Reaches(y, path[1..], x)
  }

  /** An array at the end of a path stands for its elements. */
  ghost predicate Element(v: Value, x: Value) {
    if v.Array? then x in v.items else x == v
  }

  ghost predicate At(document: Document, path: seq<string>, x: Value) {
    && path != [] && path[0] in document
    && exists y :: Reaches(document[path[0]], path[1..], y) && Element(y, x)
  }

  // ---------- the lookup ----------

  function ItemChildren(items: seq<Value>, part: string): seq<Value> {
    if items == [] then []
    else
      var last := items[|items| - 1];
      ItemChildren(items[..|items| - 1], part)
      + if last.Object? && part in last.fields then [last.fields[part]] else []
  }

  function Children(v: Value, part: string): seq<Value> {
    match v
    case Object(fields) => if part in fields then [fields[part]] else []
    case Array(items) => ItemChildren(items, part)
    case _ => []
  }

  function AllChildren(values: seq<Value>, part: string): seq<Value> {
    if values == [] then []
    else AllChildren(values[..|values| - 1], part) + Children(values[|values| - 1], part)
  }

  function Descend(values: seq<Value>, path: seq<string>): seq<Value>
    decreases |path|
  {
    if path == [] then values else Descend(AllChildren(values, path[0]), path[1..])
  }

  function Flatten(values: seq<Value>): seq<Value> {
    if values == [] then []
    else
      var last := values[|values| - 1];
      Flatten(values[..|values| - 1]) + if last.Array? then last.items else [last]
  }

  function ValuesAt(document: Document, path: seq<string>): seq<Value> {
    if path == [] || path[0] !in document then [] else Flatten(Descend([document[path[0]]], path[1..]))
  }

  method ChildrenOf(v: Value, part: string) returns (next: seq<Value>)
    ensures next == Children(v, part)
  {
    next := [];
    match v
    case Object(fields) =>
      if part in fields {
        next := [fields[part]];
      }
    case Array(items) =>
      for i := 0 to |items|
        invariant next == ItemChildren(items[..i], part)
      {
        assert items[..i + 1][..i] == items[..i];
        if items[i].Object? && part in items[i].fields {
          next := next + [items[i].fields[part]];
        }
      }
      assert items[..|items|] == items;
    case _ =>
  }

  method LookupValues(document: Document, path: seq<string>) returns (flattened: seq<Value>)
    ensures flattened == ValuesAt(document, path)
  {
    if path == [] || path[0] !in document {
      return [];
    }
    var values := [document[path[0]]];
    for k := 1 to |path|
      invariant Descend([document[path[0]]], path[1..]) == Descend(values, path[k..])
    {
      var next := [];
      for i := 0 to |values|
        invariant next == AllChildren(values[..i], path[k])
      {
        assert values[..i + 1][..i] == values[..i];
        var children := ChildrenOf(values[i], path[k]);
        next := next + children;
      }
      assert values[..|values|] == values;
      assert path[k..][1..] == path[k + 1..];
      values := next;
    }
    flattened := [];
    for i := 0 to |values|
      invariant flattened == Flatten(values[..i])
    {
      assert values[..i + 1][..i] == values[..i];
      flattened := flattened + if values[i].Array? then values[i].items else [values[i]];
    }
    assert values[..|values|] == values;
  }

  lemma {:induction false} ItemChildrenFindsExactly(items: seq<Value>, part: string, x: Value)
    ensures x in ItemChildren(items, part) <==> Child(Array(items), part, x)
  {
    if items != [] {
      var init := items[..|items| - 1];
      ItemChildrenFindsExactly(init, part, x);
      assert items == init + [items[|items| - 1]];
      assert Array(init).items == init && Array(items).items == items;
    }
  }

  lemma {:induction false} AllChildrenFindsExactly(values: seq<Value>, part: string, x: Value)
    ensures x in AllChildren(values, part) <==> exists v | v in values :: Child(v, part, x)
  {
    if values != [] {
      var init, last := values[..|values| - 1], values[|values| - 1];
      AllChildrenFindsExactly(init, part, x);
      assert values == init + [last];
      if last.Array? {
        ItemChildrenFindsExactly(last.items, part, x);
      }
      assert x in Children(last, part) <==> Child(last, part, x);
    }
  }

  lemma {:induction false} DescendFindsExactly(values: seq<Value>, path: seq<string>, x: Value)
    ensures x in Descend(values, path) <==> exists v | v in values :: Reaches(v, path, x)
    decreases |path|
  {
    if path != [] {
      var next := AllChildren(values, path[0]);
      DescendFindsExactly(next, path[1..], x);
      forall y
        ensures y in next <==> exists v | v in values :: Child(v, path[0], y)
      {
        AllChildrenFindsExactly(values, path[0], y);
      }
      forall v, y | v in values && Child(v, path[0], y) && Reaches(y, path[1..], x)
        ensures y in next && Reaches(v, path, x)
      {
      }
      forall v | v in values && Reaches(v, path, x)
        ensures exists y :: y in next && Reaches(y, path[1..], x)
      {
        var y :| Child(v, path[0], y) && Reaches(y, path[1..], x);
        assert y in next;
      }
    }
  }

  lemma {:induction false} FlattenFindsExactly(values: seq<Value>, x: Value)
    ensures x in Flatten(values) <==> exists v | v in values :: Element(v, x)
  {
    if values != [] {
      var init := values[..|values| - 1];
      var last := values[|values| - 1];
      FlattenFindsExactly(init, x);
      assert values == init + [last];
      assert x in (if last.Array? then last.items else [last]) <==> Element(last, x);
    }
  }

  /** The lookup collects exactly the values that a path reaches. */
  lemma LookupFindsExactly(document: Document, path: seq<string>, x: Value)
    ensures x in ValuesAt(document, path) <==> At(document, path, x)
  {
    if path != [] && path[0] in document {
      var start := document[path[0]];
      var values := Descend([start], path[1..]);
      FlattenFindsExactly(values, x);
      forall y
        ensures y in values <==> Reaches(start, path[1..], y)
      {
        DescendFindsExactly([start], path[1..], y);
        assert forall v :: v in [start] <==> v == start;
      }
    }
  }

  // ---------- comparison ----------

  const TEXT_KINDS := ["string", "reference", "binary"]
  const NUMBER_KINDS := ["integer", "decimal"]
  const TEXT_OPERATORS := ["co", "sw", "ew"]

  predicate Infix(part: string, s: string) { part <= s || (s != "" && Infix(part, s[1..])) }

  predicate Suffix(part: string, s: string) { |part| <= |s| && s[|s| - |part|..] == part }

  function Folded(c: Comparers, contract: Attribute, s: string): string {
    if contract.caseExact then s else c.fold(s)
  }

  /** Negative, zero or positive as the actual value is below, equal to or above the expected one;
      nothing when they cannot be compared. */
  function OrderValues(c: Comparers, actual: Value, expected: Value, contract: Attribute): Option<int> {
    if contract.kind in TEXT_KINDS then
      if !actual.Text? || !expected.Text? then None
      else Some(CompareText(Folded(c, contract, actual.text), Folded(c, contract, expected.text)))
    else if contract.kind == "dateTime" then
      if !actual.Text? || !expected.Text? then None
      else
        var left, right := c.instant(actual.text), c.instant(expected.text);
        if left.None? || right.None? then None
        else if left.value < right.value then Some(-1)
        else if left.value > right.value then Some(1)
        else Some(0)
    else if contract.kind in NUMBER_KINDS then
      if !actual.Number? || !expected.Number? then None
      else
        var left, right := c.number(actual.digits), c.number(expected.digits);
        if left.None? || right.None? then None
        else if left.value < right.value then Some(-1)
        else if left.value > right.value then Some(1)
        else Some(0)
    else if contract.kind == "boolean" then
      if !actual.Bool? || !expected.Bool? then None
      else if actual.flag == expected.flag then Some(0)
      else if !actual.flag then Some(-1)
      else Some(1)
    else None
  }

  /** None is the error for an unsupported operator. */
  function CompareValue(c: Comparers, actual: Value, expected: Value, contract: Attribute,
                        operator: string): Option<bool> {
    if expected.Null? && operator == "eq" then Some(actual.Null?)
    else if expected.Null? && operator == "ne" then Some(!actual.Null?)
    else if actual.Null? then Some(false)
    else if operator in TEXT_OPERATORS then
      if !actual.Text? || !expected.Text? then Some(false)
      else
        var left, right := Folded(c, contract, actual.text), Folded(c, contract, expected.text);
        if operator == "co" then Some(Infix(right, left))
        else if operator == "sw" then Some(right <= left)
        else Some(Suffix(right, left))
    else
      match OrderValues(c, actual, expected, contract)
      case None => Some(false)
      case Some(comparison) =>
        match operator
        case "eq" => Some(comparison == 0)
        case "ne" => Some(comparison != 0)
        case "gt" => Some(comparison > 0)
        case "ge" => Some(comparison >= 0)
        case "lt" => Some(comparison < 0)
        case "le" => Some(comparison <= 0)
        case _ => None
  }

  predicate HasContent(v: Value) {
    match v
    case Null => false
    case Text(s) => s != ""
    case Array(items) => items != []
    case Object(fields) => fields != map[]
    case _ => true
  }

  // ---------- the denotation of comparisons ----------

  /** What a typed value is compared by. */
  datatype Key = TextKey(text: string) | TimeKey(instant: int) | NumberKey(number: real) | FlagKey(flag: bool)

  function KeyOf(c: Comparers, contract: Attribute, v: Value): Option<Key> {
    if contract.kind in TEXT_KINDS then
      if v.Text? then Some(TextKey(Folded(c, contract, v.text))) else None
    else if contract.kind == "dateTime" then
      if v.Text? && c.instant(v.text).Some? then Some(TimeKey(c.instant(v.text).value)) else None
    else if contract.kind in NUMBER_KINDS then
      if v.Number? && c.number(v.digits).Some? then Some(NumberKey(c.number(v.digits).value)) else None
    else if contract.kind == "boolean" then
      if v.Bool? then Some(FlagKey(v.flag)) else None
    else None
  }

  predicate Before(a: Key, b: Key) {
    match (a, b)
    case (TextKey(s), TextKey(t)) => CompareText(s, t) < 0
    case (TimeKey(s), TimeKey(t)) => s < t
    case (NumberKey(s), NumberKey(t)) => s < t
    case (FlagKey(s), FlagKey(t)) => !s && t
    case _ => false
  }

  lemma OrderFollowsKeys(c: Comparers, actual: Value, expected: Value, contract: Attribute)
    ensures var r, a, b := OrderValues(c, actual, expected, contract), KeyOf(c, contract, actual),
      KeyOf(c, contract, expected);
      && (r.Some? <==> a.Some? && b.Some?)
      && (r.Some? ==> (r.value < 0 <==> Before(a.value, b.value)) && (r.value == 0 <==> a == b)
                      && (r.value > 0 <==> Before(b.value, a.value)))
  {
    if contract.kind in TEXT_KINDS && actual.Text? && expected.Text? {
      CompareTextAntisymmetric(Folded(c, contract, actual.text), Folded(c, contract, expected.text));
    }
  }

  /** Keys of one attribute are strictly and totally ordered. */
  lemma KeysAreOrdered(c: Comparers, contract: Attribute, u: Value, v: Value, w: Value)
    requires KeyOf(c, contract, u).Some? && KeyOf(c, contract, v).Some? && KeyOf(c, contract, w).Some?
    ensures var x, y, z := KeyOf(c, contract, u).value, KeyOf(c, contract, v).value, KeyOf(c, contract, w).value;
      && (Before(x, y) ==> !Before(y, x)) && (Before(x, y) || x == y || Before(y, x))
      && (Before(x, y) && Before(y, z) ==> Before(x, z))
  {
    if contract.kind in TEXT_KINDS {
      var x, y, z := Folded(c, contract, u.text), Folded(c, contract, v.text), Folded(c, contract, w.text);
      CompareTextAntisymmetric(x, y);
      if CompareText(x, y) < 0 && CompareText(y, z) < 0 {
        CompareTextTransitive(x, y, z);
      }
    }
  }

  /** The meaning of one comparison. A null literal asks whether the value is null; otherwise both
      sides must be text, or must have keys. */
  ghost predicate Compares(c: Comparers, operator: string, actual: Value, expected: Value, contract: Attribute) {
    if expected.Null? then (operator == "eq" && actual.Null?) || (operator == "ne" && !actual.Null?)
    else if operator in TEXT_OPERATORS then
      && actual.Text? && expected.Text?
      && var s, part := Folded(c, contract, actual.text), Folded(c, contract, expected.text);
         exists before, after: string ::
           && s == before + part + after
           && (operator == "sw" ==> before == "") && (operator == "ew" ==> after == "")
    else
      var a, b := KeyOf(c, contract, actual), KeyOf(c, contract, expected);
      && a.Some? && b.Some?
      && match operator
         case "eq" => a == b
         case "ne" => a != b
         case "lt" => Before(a.value, b.value)
         case "gt" => Before(b.value, a.value)
         case "le" => !Before(b.value, a.value)
         case "ge" => !Before(a.value, b.value)
         case _ => false
  }

  lemma {:induction false} InfixIsInside(part: string, s: string)
    ensures Infix(part, s) <==> exists before, after: string :: s == before + part + after
  {
    if s != "" {
      InfixIsInside(part, s[1..]);
    }
    if part <= s {
      assert s == "" + part + s[|part|..];
    } else if Infix(part, s) {
      var before, after :| s[1..] == before + part + after;
      assert s == ([s[0]] + before) + part + after;
    }
    forall before, after: string | s == before + part + after
      ensures Infix(part, s)
    {
      if before == "" {
        assert s == part + after;
      } else {
        assert s[1..] == before[1..] + part + after;
      }
    }
  }

  lemma TextSearch(operator: string, s: string, part: string)
    requires operator in TEXT_OPERATORS
    ensures (if operator == "co" then Infix(part, s) else if operator == "sw" then part <= s else Suffix(part, s))
       <==> exists before, after: string ::
              s == before + part + after && (operator == "sw" ==> before == "") && (operator == "ew" ==> after == "")
  {
    InfixIsInside(part, s);
    if operator == "sw" && part <= s {
      assert s == "" + part + s[|part|..];
    }
    if operator == "ew" && Suffix(part, s) {
      assert s == s[..|s| - |part|] + part + "";
    }
    forall before, after: string | s == before + part + after
      ensures (before == "" ==> part <= s) && (after == "" ==> Suffix(part, s))
    {
      assert s[|before|..|before| + |part|] == part;
    }
  }

  lemma CompareValueMeans(c: Comparers, actual: Value, expected: Value, contract: Attribute, operator: string)
    ensures var r := CompareValue(c, actual, expected, contract, operator);
      && (r.Some? ==> r.value == Compares(c, operator, actual, expected, contract))
      && (operator in COMPARISONS ==> r.Some?)
  {
    if !expected.Null? && operator in TEXT_OPERATORS && actual.Text? && expected.Text? {
      TextSearch(operator, Folded(c, contract, actual.text), Folded(c, contract, expected.text));
    } else {
      OrderFollowsKeys(c, actual, expected, contract);
    }
  }

  // ---------- validated filters ----------

  /** A filter whose attributes have been resolved. */
  datatype Bound =
    | BoundAnd(left: Bound, right: Bound)
    | BoundOr(left: Bound, right: Bound)
    | BoundNot(child: Bound)
    | BoundValuePath(target: Target, child: Bound)
    | BoundPresent(target: Target)
    | BoundCompare(operator: string, target: Target, value: Value)

  predicate Compatible(c: Comparers, contract: Attribute, operator: string, value: Value) {
    if value.Null? then operator == "eq" || operator == "ne"
    else if operator in TEXT_OPERATORS then value.Text? && (contract.kind == "string" || contract.kind == "reference")
    else if contract.kind == "boolean" then value.Bool? && (operator == "eq" || operator == "ne")
    else if contract.kind in NUMBER_KINDS then
      && value.Number? && c.number(value.digits).Some?
      && (contract.kind != "integer" || c.number(value.digits).value.Floor as real == c.number(value.digits).value)
    else if contract.kind in TEXT_KINDS || contract.kind == "dateTime" then
      && value.Text? && (contract.kind != "binary" || operator == "eq" || operator == "ne")
      && (contract.kind != "dateTime" || c.instant(value.text).Some?)
    else false
  }

  /** Inside brackets names resolve among the sub-attributes, unless there are none. */
  function Resolve(fold: string -> string, root: string -> Option<Target>, scope: seq<Attribute>,
                   raw: string): Option<Target> {
    if scope == [] then root(raw) else ResolveFrom(fold, scope, raw, [])
  }

  function Validate(c: Comparers, root: string -> Option<Target>, scope: seq<Attribute>, f: Filter): Option<Bound>
    decreases f
  {
    match f
    case And(left, right) =>
      var l, r := Validate(c, root, scope, left), Validate(c, root, scope, right);
      if l.Some? && r.Some? then Some(BoundAnd(l.value, r.value)) else None
    case Or(left, right) =>
      var l, r := Validate(c, root, scope, left), Validate(c, root, scope, right);
      if l.Some? && r.Some? then Some(BoundOr(l.value, r.value)) else None
    case Not(child) =>
      var b := Validate(c, root, scope, child);
      if b.Some? then Some(BoundNot(b.value)) else None
    case ValuePath(attribute, child) =>
      var target := Resolve(c.fold, root, scope, attribute);
      if target.None? || !target.value.contract.multiValued || target.value.contract.kind != "complex" then None
      else
        var b := Validate(c, root, target.value.contract.subAttributes, child);
        if b.Some? then Some(BoundValuePath(target.value, b.value)) else None
    case Present(attribute) =>
      var target := Resolve(c.fold, root, scope, attribute);
      if target.Some? then Some(BoundPresent(target.value)) else None
    case Compare(operator, attribute, value) =>
      var target := Resolve(c.fold, root, scope, attribute);
      if target.Some? && Compatible(c, target.value.contract, operator, value)
      then Some(BoundCompare(operator, target.value, value)) else None
  }

  predicate KnownOperators(f: Filter) {
    match f
    case And(left, right) => KnownOperators(left) && KnownOperators(right)
    case Or(left, right) => KnownOperators(left) && KnownOperators(right)
    case Not(child) => KnownOperators(child)
    case ValuePath(_, child) => KnownOperators(child)
    case Present(_) => true
    case Compare(operator, _, _) => operator in COMPARISONS
  }

  /** Every comparison has a supported operator and a literal its attribute can be compared with. */
  predicate WellTyped(c: Comparers, b: Bound) {
    match b
    case BoundAnd(left, right) => WellTyped(c, left) && WellTyped(c, right)
    case BoundOr(left, right) => WellTyped(c, left) && WellTyped(c, right)
    case BoundNot(child) => WellTyped(c, child)
    case BoundValuePath(target, child) => target.contract.multiValued && target.contract.kind == "complex"
      && WellTyped(c, child)
    case BoundPresent(_) => true
    case BoundCompare(operator, target, value) =>
      operator in COMPARISONS && Compatible(c, target.contract, operator, value)
  }

  lemma {:induction false} ValidatedIsWellTyped(c: Comparers, root: string -> Option<Target>, scope: seq<Attribute>,
                                                f: Filter)
    requires KnownOperators(f) && Validate(c, root, scope, f).Some?
    ensures WellTyped(c, Validate(c, root, scope, f).value)
    decreases f
  {
    match f
    case And(left, right) =>
      ValidatedIsWellTyped(c, root, scope, left);
      ValidatedIsWellTyped(c, root, scope, right);
    case Or(left, right) =>
      ValidatedIsWellTyped(c, root, scope, left);
      ValidatedIsWellTyped(c, root, scope, right);
    case Not(child) =>
      ValidatedIsWellTyped(c, root, scope, child);
    case ValuePath(attribute, child) =>
      ValidatedIsWellTyped(c, root, Resolve(c.fold, root, scope, attribute).value.contract.subAttributes, child);
    case _ =>
  }

  lemma {:induction false} OrTreesAreKnown(w: Words, t: OrTree)
    requires OrWellFormed(w, t)
    ensures KnownOperators(OrAst(w.lower, t))
    decreases t, 1
  {
    match t
    case OneAnd(a) => AndTreesAreKnown(w, a);
    case OrMore(left, _, right) =>
      OrTreesAreKnown(w, left);
      AndTreesAreKnown(w, right);
  }

  lemma {:induction false} AndTreesAreKnown(w: Words, t: AndTree)
    requires AndWellFormed(w, t)
    ensures KnownOperators(AndAst(w.lower, t))
    decreases t, 1
  {
    match t
    case OneUnary(u) => UnaryTreesAreKnown(w, u);
    case AndMore(left, _, right) =>
      AndTreesAreKnown(w, left);
      UnaryTreesAreKnown(w, right);
  }

  lemma {:induction false} UnaryTreesAreKnown(w: Words, t: UnaryTree)
    requires UnaryWellFormed(w, t)
    ensures KnownOperators(UnaryAst(w.lower, t))
    decreases t, 1
  {
    match t
    case Negated(_, child) => OrTreesAreKnown(w, child);
    case Grouped(child) => OrTreesAreKnown(w, child);
    case Plain(Bracketed(_, child)) => OrTreesAreKnown(w, child);
    case Plain(_) =>
  }

  /** A filter that was parsed and validated is well typed. */
  lemma AcceptedFiltersAreWellTyped(w: Words, c: Comparers, root: string -> Option<Target>, tokens: seq<Token>)
    requires Terminated(tokens) && ParseFilter(w, tokens).Some?
    requires Validate(c, root, [], ParseFilter(w, tokens).value).Some?
    ensures WellTyped(c, Validate(c, root, [], ParseFilter(w, tokens).value).value)
  {
    ParseOrIsSound(w, tokens, 0);
    OrTreesAreKnown(w, ParseOr(w, tokens, 0).value);
    ValidatedIsWellTyped(c, root, [], ParseFilter(w, tokens).value);
  }

  // ---------- the meaning of a filter and its evaluator ----------

  ghost predicate Holds(c: Comparers, b: Bound, document: Document) {
    match b
    case BoundAnd(left, right) => Holds(c, left, document) && Holds(c, right, document)
    case BoundOr(left, right) => Holds(c, left, document) || Holds(c, right, document)
    case BoundNot(child) => !Holds(c, child, document)
    case BoundValuePath(target, child) =>
      exists x :: At(document, target.path, x) && x.Object? && Holds(c, child, x.fields)
    case BoundPresent(target) => exists x :: At(document, target.path, x) && HasContent(x)
    case BoundCompare(operator, target, value) =>
      exists x :: At(document, target.path, x) && Compares(c, operator, x, value, target.contract)
  }

  /** Evaluates left to right and stops early. A result is always the meaning of the filter, and a
      well typed filter always has a result. */
  method Match(c: Comparers, b: Bound, document: Document) returns (r: Option<bool>)
    ensures r.Some? ==> r.value == Holds(c, b, document)
    ensures WellTyped(c, b) ==> r.Some?
    decreases b, 1
  {
    match b
    case BoundAnd(left, right) =>
      r := Match(c, left, document);
      if r.Some? && r.value {
        r := Match(c, right, document);
      }
    case BoundOr(left, right) =>
      r := Match(c, left, document);
      if r.Some? && !r.value {
        r := Match(c, right, document);
      }
    case BoundNot(child) =>
      r := Match(c, child, document);
      if r.Some? {
        r := Some(!r.value);
      }
    case BoundValuePath(target, child) => r := MatchElement(c, target, child, document);
    case BoundPresent(target) => r := MatchPresent(c, target, document);
    case BoundCompare(operator, target, value) => r := MatchComparison(c, operator, target, value, document);
  }

  method MatchElement(c: Comparers, target: Target, child: Bound, document: Document) returns (r: Option<bool>)
    ensures r.Some? ==> r.value == Holds(c, BoundValuePath(target, child), document)
    ensures WellTyped(c, child) ==> r.Some?
    decreases child, 2
  {
    hide At, ValuesAt;
    var values := LookupValues(document, target.path);
    for i := 0 to |values|
      invariant forall k | 0 <= k < i :: !(values[k].Object? && Holds(c, child, values[k].fields))
    {
      LookupFindsExactly(document, target.path, values[i]);
      if values[i].Object? {
        r := Match(c, child, values[i].fields);
        if r.None? || r.value {
          return;
        }
      }
    }
    forall x | At(document, target.path, x) && x.Object?
      ensures !Holds(c, child, x.fields)
    {
      LookupFindsExactly(document, target.path, x);
    }
    return Some(false);
  }

  method MatchPresent(c: Comparers, target: Target, document: Document) returns (r: Option<bool>)
    ensures r == Some(Holds(c, BoundPresent(target), document))
  {
    hide At, ValuesAt;
    var values := LookupValues(document, target.path);
    for i := 0 to |values|
      invariant forall k | 0 <= k < i :: !HasContent(values[k])
    {
      LookupFindsExactly(document, target.path, values[i]);
      if HasContent(values[i]) {
        return Some(true);
      }
    }
    forall x | At(document, target.path, x)
      ensures !HasContent(x)
    {
      LookupFindsExactly(document, target.path, x);
    }
    return Some(false);
  }

  method MatchComparison(c: Comparers, operator: string, target: Target, value: Value, document: Document)
    returns (r: Option<bool>)
    ensures r.Some? ==> r.value == Holds(c, BoundCompare(operator, target, value), document)
    ensures operator in COMPARISONS ==> r.Some?
  {
    hide At, ValuesAt, Compares, CompareValue;
    var values := LookupValues(document, target.path);
    for i := 0 to |values|
      invariant forall k | 0 <= k < i :: !Compares(c, operator, values[k], value, target.contract)
    {
      LookupFindsExactly(document, target.path, values[i]);
      CompareValueMeans(c, values[i], value, target.contract, operator);
      r := CompareValue(c, values[i], value, target.contract, operator);
      if r.None? || r.value {
        return;
      }
    }
    forall x | At(document, target.path, x)
      ensures !Compares(c, operator, x, value, target.contract)
    {
      LookupFindsExactly(document, target.path, x);
    }
    return Some(false);
  }

  // ---------- what validation buys ----------

  /** A validated literal can be compared with every value of its attribute's type: the six
      orderings then partition as on a totally ordered set. */
  lemma TypedComparisonsPartition(c: Comparers, contract: Attribute, operator: string, actual: Value, expected: Value)
    requires Compatible(c, contract, operator, expected) && !expected.Null? && operator !in TEXT_OPERATORS
    requires operator in COMPARISONS
    ensures KeyOf(c, contract, expected).Some?
    ensures KeyOf(c, contract, actual).Some? ==>
      && (Compares(c, "eq", actual, expected, contract) <==> !Compares(c, "ne", actual, expected, contract))
      && (Compares(c, "lt", actual, expected, contract) <==> !Compares(c, "ge", actual, expected, contract))
      && (Compares(c, "gt", actual, expected, contract) <==> !Compares(c, "le", actual, expected, contract))
      && (Compares(c, "le", actual, expected, contract) <==>
            Compares(c, "lt", actual, expected, contract) || Compares(c, "eq", actual, expected, contract))
    ensures KeyOf(c, contract, actual).None? ==> !Compares(c, operator, actual, expected, contract)
  {
    if KeyOf(c, contract, actual).Some? {
      KeysAreOrdered(c, contract, actual, expected, actual);
    }
  }

  // ---------- value paths ----------

  lemma {:induction false} ReachesThrough(v: Value, path: seq<string>, sub: string, x: Value)
    ensures Reaches(v, path + [sub], x) <==> exists y :: Reaches(v, path, y) && Child(y, sub, x)
    decreases |path|
  {
    if path == [] {
      assert [sub][1..] == [];
      assert Reaches(v, path, v);
      assert Child(v, sub, x) ==> Reaches(x, [sub][1..], x);
    } else {
      assert (path + [sub])[1..] == path[1..] + [sub];
      forall z
        ensures Reaches(z, path[1..] + [sub], x) <==> exists y :: Reaches(z, path[1..], y) && Child(y, sub, x)
      {
        ReachesThrough(z, path[1..], sub, x);
      }
      forall z, y | Child(v, path[0], z) && Reaches(z, path[1..], y) && Child(y, sub, x)
        ensures Reaches(v, path, y) && Reaches(v, path + [sub], x)
      {
        assert Reaches(z, (path + [sub])[1..], x);
      }
      if Reaches(v, path + [sub], x) {
        var z :| Child(v, path[0], z) && Reaches(z, path[1..] + [sub], x);
        var y :| Reaches(z, path[1..], y) && Child(y, sub, x);
        assert Reaches(v, path, y);
      }
    }
  }

  /** A sub-attribute of a path is that attribute of one of the objects at the path. */
  lemma SubAttributeIsInAnElement(document: Document, path: seq<string>, sub: string, x: Value)
    requires path != []
    ensures At(document, path + [sub], x) <==> exists e :: At(document, path, e) && e.Object? && At(e.fields, [sub], x)
  {
    if path[0] in document {
      var start, rest := document[path[0]], path[1..];
      assert (path + [sub])[1..] == rest + [sub];
      forall y
        ensures Reaches(start, rest + [sub], y) <==> exists z :: Reaches(start, rest, z) && Child(z, sub, y)
      {
        ReachesThrough(start, rest, sub, y);
      }
      forall z, y
        ensures Child(z, sub, y) <==> exists e :: Element(z, e) && e.Object? && sub in e.fields && y == e.fields[sub]
      {
        if Child(z, sub, y) && z.Object? {
          assert Element(z, z);
        }
      }
      forall e: Value | e.Object?
        ensures At(e.fields, [sub], x) <==> sub in e.fields && Element(e.fields[sub], x)
      {
        assert [sub][1..] == [];
        assert sub in e.fields ==> Reaches(e.fields[sub], [], e.fields[sub]);
      }
    }
  }

  /** A bracketed comparison says the same as the dotted one. */
  lemma BracketOfOneComparisonIsDotted(c: Comparers, target: Target, sub: Attribute, operator: string, value: Value,
                                       document: Document)
    requires target.path != []
    ensures Holds(c, BoundValuePath(target, BoundCompare(operator, Target([sub.name], sub), value)), document)
       <==> Holds(c, BoundCompare(operator, Target(target.path + [sub.name], sub), value), document)
  {
    hide At, Compares;
    forall x
      ensures At(document, target.path + [sub.name], x)
         <==> exists e :: At(document, target.path, e) && e.Object? && At(e.fields, [sub.name], x)
    {
      SubAttributeIsInAnElement(document, target.path, sub.name, x);
    }
  }

  lemma BracketOfPresenceIsDotted(c: Comparers, target: Target, sub: Attribute, document: Document)
    requires target.path != []
    ensures Holds(c, BoundValuePath(target, BoundPresent(Target([sub.name], sub))), document)
       <==> Holds(c, BoundPresent(Target(target.path + [sub.name], sub)), document)
  {
    hide At, HasContent;
    forall x
      ensures At(document, target.path + [sub.name], x)
         <==> exists e :: At(document, target.path, e) && e.Object? && At(e.fields, [sub.name], x)
    {
      SubAttributeIsInAnElement(document, target.path, sub.name, x);
    }
  }

  /** Comparisons and presence tests of sub-attributes, joined by "and" and "or". */
  predicate Flat(b: Bound) {
    match b
    case BoundAnd(left, right) => Flat(left) && Flat(right)
    case BoundOr(left, right) => Flat(left) && Flat(right)
    case BoundPresent(t) => t.path == [t.contract.name]
    case BoundCompare(_, t, _) => t.path == [t.contract.name]
    case _ => false
  }

  predicate Disjunctive(b: Bound) {
    match b
    case BoundOr(left, right) => Disjunctive(left) && Disjunctive(right)
    case BoundAnd(_, _) => false
    case _ => true
  }

  /** The same conditions with dotted names in place of brackets. */
  function Dotted(target: Target, b: Bound): Bound {
    match b
    case BoundAnd(left, right) => BoundAnd(Dotted(target, left), Dotted(target, right))
    case BoundOr(left, right) => BoundOr(Dotted(target, left), Dotted(target, right))
    case BoundPresent(t) => BoundPresent(Target(target.path + t.path, t.contract))
    case BoundCompare(operator, t, value) => BoundCompare(operator, Target(target.path + t.path, t.contract), value)
    case _ => b
  }

  /** Brackets ask for one element that meets every condition, which is more than dotted conditions
      ask; where nothing is joined by "and" they ask for the same. */
  lemma {:induction false} BracketsAskForOneElement(c: Comparers, target: Target, b: Bound, document: Document)
    requires target.path != [] && Flat(b)
    ensures Holds(c, BoundValuePath(target, b), document) ==> Holds(c, Dotted(target, b), document)
    ensures Disjunctive(b)
      ==> (Holds(c, BoundValuePath(target, b), document) <==> Holds(c, Dotted(target, b), document))
    decreases b
  {
    hide At, Compares, HasContent;
    match b
    case BoundAnd(left, right) =>
      BracketsAskForOneElement(c, target, left, document);
      BracketsAskForOneElement(c, target, right, document);
      BracketOfJoined(c, target, left, right, document);
    case BoundOr(left, right) =>
      BracketsAskForOneElement(c, target, left, document);
      BracketsAskForOneElement(c, target, right, document);
      BracketOfJoined(c, target, left, right, document);
    case BoundPresent(t) => BracketOfPresenceIsDotted(c, target, t.contract, document);
    case BoundCompare(operator, t, value) =>
      BracketOfOneComparisonIsDotted(c, target, t.contract, operator, value, document);
  }

  lemma BracketOfJoined(c: Comparers, target: Target, left: Bound, right: Bound, document: Document)
    ensures Holds(c, BoundValuePath(target, BoundAnd(left, right)), document) ==>
      Holds(c, BoundValuePath(target, left), document) && Holds(c, BoundValuePath(target, right), document)
    ensures Holds(c, BoundValuePath(target, BoundOr(left, right)), document) <==>
      Holds(c, BoundValuePath(target, left), document) || Holds(c, BoundValuePath(target, right), document)
  {
    hide At, Compares, HasContent;
    forall e: Value | e.Object?
      ensures Holds(c, BoundAnd(left, right), e.fields) <==> Holds(c, left, e.fields) && Holds(c, right, e.fields)
      ensures Holds(c, BoundOr(left, right), e.fields) <==> Holds(c, left, e.fields) || Holds(c, right, e.fields)
    {
    }
  }

  datatype BoundComparison = BoundComparison(sub: Attribute, operator: string, value: Value)

  function Inside(b: BoundComparison): Bound { BoundCompare(b.operator, Target([b.sub.name], b.sub), b.value) }

  function Plain(name: string): Attribute { Attribute(name, "string", false, false, true, "readWrite", "default", []) }

  lemma TopLevelAt(document: Document, name: string, x: Value)
    requires name in document
    ensures At(document, [name], x) <==> Element(document[name], x)
  {
    assert [name][1..] == [];
    assert Reaches(document[name], [], document[name]);
  }

  lemma InsideIsEquality(c: Comparers, name: string, value: string, document: Document)
    requires name in document && document[name].Text?
    ensures Holds(c, Inside(BoundComparison(Plain(name), "eq", Text(value))), document)
      <==> document[name].text == value
  {
    TopLevelAt(document, name, document[name]);
    forall x | At(document, [name], x)
      ensures x == document[name]
    {
      TopLevelAt(document, name, x);
    }
  }

  lemma ScatteredConditions(c: Comparers, target: Target, document: Document, left: BoundComparison,
                            right: BoundComparison, first: Document, second: Document)
    requires target.path != []
    requires forall x :: At(document, target.path, x) <==> x == Object(first) || x == Object(second)
    requires Holds(c, Inside(left), first) && !Holds(c, Inside(left), second)
    requires Holds(c, Inside(right), second) && !Holds(c, Inside(right), first)
    ensures Holds(c, BoundAnd(Dotted(target, Inside(left)), Dotted(target, Inside(right))), document)
    ensures !Holds(c, BoundValuePath(target, BoundAnd(Inside(left), Inside(right))), document)
  {
    hide At, Compares;
    assert At(document, target.path, Object(first)) && At(document, target.path, Object(second));
    assert Object(first).fields == first && Object(second).fields == second;
    assert Holds(c, BoundValuePath(target, Inside(left)), document);
    assert Holds(c, BoundValuePath(target, Inside(right)), document);
    BracketOfOneComparisonIsDotted(c, target, left.sub, left.operator, left.value, document);
    BracketOfOneComparisonIsDotted(c, target, right.sub, right.operator, right.value, document);
  }

  /** The converse fails: one address has the type, another the value. */
  lemma DottedConditionsMayMeetInDifferentElements(c: Comparers, target: Target)
    requires target.path == ["emails"]
    ensures var document := map["emails" := Array([
              Object(map["type" := Text("work"), "value" := Text("a")]),
              Object(map["type" := Text("home"), "value" := Text("b")])])];
            var left := BoundComparison(Plain("type"), "eq", Text("work"));
            var right := BoundComparison(Plain("value"), "eq", Text("b"));
      && Holds(c, BoundAnd(Dotted(target, Inside(left)), Dotted(target, Inside(right))), document)
      && !Holds(c, BoundValuePath(target, BoundAnd(Inside(left), Inside(right))), document)
  {
    hide At, Compares, Plain, Holds;
    var first := map["type" := Text("work"), "value" := Text("a")];
    var second := map["type" := Text("home"), "value" := Text("b")];
    var items := [Object(first), Object(second)];
    var document := map["emails" := Array(items)];
    InsideIsEquality(c, "type", "work", first);
    InsideIsEquality(c, "type", "work", second);
    InsideIsEquality(c, "value", "b", first);
    InsideIsEquality(c, "value", "b", second);
    forall x
      ensures At(document, ["emails"], x) <==> x == items[0] || x == items[1]
    {
      TopLevelAt(document, "emails", x);
    }
    ScatteredConditions(c, target, document, BoundComparison(Plain("type"), "eq", Text("work")),
                        BoundComparison(Plain("value"), "eq", Text("b")), first, second);
  }
}
