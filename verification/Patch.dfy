/** PATCH operations on a working copy: what each does, and the loops that do it in place. */
module Patch {
  import opened Values
  import opened FilterMeaning

  datatype Operation = Add | Replace | Remove

  datatype Refusal = NoTarget | InvalidPath | InvalidFilter | InvalidValue

  datatype Outcome<+T> = Done(value: T) | Refused(reason: Refusal)

  /** A parsed path. A value path holds its resolved filter; the filter may have been refused, and the
      attribute may not be a multi-valued complex one. */
  datatype Selector = Everything | NotMultiValued | BadFilter | Where(filter: Bound)

  datatype PatchPath = PatchPath(extension: string, attribute: string, selector: Selector, sub: string)

  // ---------- adding ----------

  function Merged(values: seq<Value>, additions: seq<Value>): seq<Value>
    decreases |additions|
  {
    if additions == [] then values
    else Merged(if additions[0] in values then values else values + [additions[0]], additions[1..])
  }

  /** Arrays gain what they lack; anything else is replaced. */
  function Added(target: Document, attribute: string, value: Value): Document {
    if attribute !in target || !target[attribute].Array? then target[attribute := value]
    else
      target[attribute := Array(Merged(target[attribute].items, if value.Array? then value.items else [value]))]
  }

  method AddValue(target: Document, attribute: string, value: Value) returns (target': Document)
    ensures target' == Added(target, attribute, value)
  {
    if attribute !in target || !target[attribute].Array? {
      return target[attribute := value];
    }
    var values := target[attribute].items;
    if value.Array? {
      for i := 0 to |value.items|
        invariant Merged(target[attribute].items, value.items) == Merged(values, value.items[i..])
      {
        assert value.items[i..][1..] == value.items[i + 1..];
        if value.items[i] !in values {
          values := values + [value.items[i]];
        }
      }
      target' := target[attribute := Array(values)];
    } else {
      assert [value][1..] == [] && Merged(values, [value]) == if value in values then values else values + [value];
      assert target == target[attribute := Array(values)];
      target' := target;
      if value !in values {
        target' := target[attribute := Array(values + [value])];
      }
    }
  }

  // ---------- operations without a filter ----------

  function DirectOne(target: Document, attribute: string, operation: Operation, value: Value): Outcome<Document> {
    match operation
    case Remove => if attribute in target then Done(target - {attribute}) else Refused(NoTarget)
    case Replace => if attribute in target then Done(target[attribute := value]) else Refused(NoTarget)
    case Add => Done(Added(target, attribute, value))
  }

  function Direct(target: Document, attribute: string, sub: string, operation: Operation,
                  value: Value): Outcome<Document> {
    if sub == "" then DirectOne(target, attribute, operation, value)
    else if attribute !in target then
      if operation.Add? then Done(target[attribute := Object(map[sub := value])]) else Refused(NoTarget)
    else
      match target[attribute]
      case Object(fields) =>
        (match DirectOne(fields, sub, operation, value)
         case Refused(reason) => Refused(reason)
         case Done(next) => Done(target[attribute := Object(next)]))
      case _ => Refused(InvalidPath)
  }

  /** Without a path every attribute of the value is added or replaced. */
  function Pathless(target: Document, operation: Operation, value: Value): Outcome<Document> {
    if operation.Remove? then Refused(NoTarget)
    else if !value.Object? then Refused(InvalidValue)
    else Done(map k | k in target.Keys + value.fields.Keys ::
      if k !in value.fields then target[k]
      else if operation.Add? then Added(target, k, value.fields[k])[k]
      else value.fields[k])
  }

  // ---------- operations on matching elements ----------

  ghost predicate Selected(c: Comparers, filter: Bound, v: Value) { v.Object? && Holds(c, filter, v.fields) }

  ghost predicate AnySelected(c: Comparers, filter: Bound, values: seq<Value>) {
    exists v | v in values :: Selected(c, filter, v)
  }

  /** The elements that are not selected, in order. */
  ghost function Unselected(c: Comparers, filter: Bound, values: seq<Value>): (kept: seq<Value>)
    ensures |kept| <= |values|
  {
    if values == [] then []
    else
      var last := values[|values| - 1];
      Unselected(c, filter, values[..|values| - 1]) + if Selected(c, filter, last) then [] else [last]
  }

  /** One matching element under add, replace, or a remove below it. */
  function Changed(item: Document, sub: string, operation: Operation, value: Value): Outcome<Document> {
    if sub == "" then (if value.Object? then Done(item + value.fields) else Refused(InvalidValue))
    else DirectOne(item, sub, operation, value)
  }

  /** Each selected element changed, the others as they are; the first refusal counts. */
  ghost function ChangedAll(c: Comparers, filter: Bound, values: seq<Value>, sub: string, operation: Operation,
                            value: Value):
    Outcome<seq<Value>>
  {
    if values == [] then Done([])
    else
      match ChangedAll(c, filter, values[..|values| - 1], sub, operation, value)
      case Refused(reason) => Refused(reason)
      case Done(changed) =>
        var last := values[|values| - 1];
        if !Selected(c, filter, last) then Done(changed + [last])
        else
          match Changed(last.fields, sub, operation, value)
          case Refused(reason) => Refused(reason)
          case Done(item) => Done(changed + [Object(item)])
  }

  ghost function Filtered(c: Comparers, target: Document, attribute: string, selector: Selector, sub: string,
                          operation: Operation, value: Value): Outcome<Document>
    requires !selector.Everything?
  {
    if attribute !in target || !target[attribute].Array? then Refused(NoTarget)
    else if selector.NotMultiValued? then Refused(InvalidPath)
    else if selector.BadFilter? then Refused(InvalidFilter)
    else
      var values := target[attribute].items;
      if !AnySelected(c, selector.filter, values) then (if operation.Remove? then Done(target) else Refused(NoTarget))
      else if operation.Remove? && sub == ""
        then Done(target[attribute := Array(Unselected(c, selector.filter, values))])
      else
        match ChangedAll(c, selector.filter, values, sub, operation, value)
        case Refused(reason) => Refused(reason)
        case Done(changed) => Done(target[attribute := Array(changed)])
  }

  /** The positions of the elements that match, ascending. */
  method Matches(c: Comparers, filter: Bound, values: array<Value>) returns (matches: set<nat>)
    requires WellTyped(c, filter)
    ensures forall i :: i in matches <==> 0 <= i < values.Length && Selected(c, filter, values[i])
  {
    hide Holds, WellTyped;
    matches := {};
    for i := 0 to values.Length
      invariant forall k :: k in matches <==> 0 <= k < i && Selected(c, filter, values[k])
    {
      if values[i].Object? {
        var matched := Match(c, filter, values[i].fields);
        if matched.value {
          matches := matches + {i};
        }
      }
    }
  }

  /** Moves the elements that stay to the front of the slice they share with the source. */
  method Compact(ghost c: Comparers, ghost filter: Bound, values: array<Value>, matches: set<nat>) returns (n: nat)
    requires forall i | 0 <= i < values.Length :: i in matches <==> Selected(c, filter, values[i])
    modifies values
    ensures n <= values.Length && values[..n] == Unselected(c, filter, old(values[..]))
  {
    hide Selected;
    ghost var source, kept := values[..], [];
    n := 0;
    for i := 0 to values.Length
      invariant |kept| == n <= i && kept == Unselected(c, filter, source[..i])
      invariant forall k | 0 <= k < n :: values[k] == kept[k]
      invariant forall k | i <= k < values.Length :: values[k] == source[k]
    {
      assert source[..i + 1][..i] == source[..i];
      if i !in matches {
        kept := kept + [values[i]];
        values[n] := values[i];
        n := n + 1;
      }
    }
    assert source[..values.Length] == source;
  }

  /** Changes the matching elements where they stand. */
  method ChangeMatches(ghost c: Comparers, ghost filter: Bound, values: array<Value>, matches: set<nat>, sub: string,
                       operation: Operation, value: Value) returns (refusal: Option<Refusal>)
    requires forall i | 0 <= i < values.Length :: i in matches <==> Selected(c, filter, values[i])
    modifies values
    ensures match ChangedAll(c, filter, old(values[..]), sub, operation, value)
            case Refused(reason) => refusal == Some(reason)
            case Done(changed) => refusal == None && values[..] == changed
  {
    hide Selected, Changed, ChangedAll;
    ghost var source, done := values[..], [];
    assert ChangedAll(c, filter, source[..0], sub, operation, value) == Done([]) by {
      ChangesNothing(c, filter, sub, operation, value);
      assert source[..0] == [];
    }
    for i := 0 to values.Length
      invariant |done| == i && ChangedAll(c, filter, source[..i], sub, operation, value) == Done(done)
      invariant forall k | 0 <= k < i :: values[k] == done[k]
      invariant forall k | i <= k < values.Length :: values[k] == source[k]
    {
      ChangesOneMore(c, filter, source, i, done, sub, operation, value);
      if i in matches {
        SelectedIsObject(c, filter, values[i]);
        var changed := Changed(values[i].fields, sub, operation, value);
        if changed.Refused? {
          RefusedStays(c, filter, source, i + 1, sub, operation, value);
          return Some(changed.reason);
        }
        values[i] := Object(changed.value);
      }
      done := done + [values[i]];
    }
    assert source[..values.Length] == source && values[..] == done;
    return None;
  }

  lemma ChangesNothing(c: Comparers, filter: Bound, sub: string, operation: Operation, value: Value)
    ensures ChangedAll(c, filter, [], sub, operation, value) == Done([])
  {
  }

  lemma ChangesOneMore(c: Comparers, filter: Bound, source: seq<Value>, i: nat, done: seq<Value>, sub: string,
                       operation: Operation, value: Value)
    requires i < |source| && ChangedAll(c, filter, source[..i], sub, operation, value) == Done(done)
    ensures ChangedAll(c, filter, source[..i + 1], sub, operation, value) ==
      if !Selected(c, filter, source[i]) then Done(done + [source[i]])
      else match Changed(source[i].fields, sub, operation, value)
           case Refused(reason) => Refused(reason)
           case Done(item) => Done(done + [Object(item)])
  {
    assert source[..i + 1][..i] == source[..i];
  }

  lemma SelectedIsObject(c: Comparers, filter: Bound, v: Value)
    requires Selected(c, filter, v)
    ensures v.Object?
  {
  }

  lemma {:induction false} RefusedStays(c: Comparers, filter: Bound, values: seq<Value>, n: nat, sub: string,
                                        operation: Operation, value: Value)
    requires n <= |values| && ChangedAll(c, filter, values[..n], sub, operation, value).Refused?
    ensures ChangedAll(c, filter, values, sub, operation, value)
         == ChangedAll(c, filter, values[..n], sub, operation, value)
    decreases |values|
  {
    if n < |values| {
      assert values[..|values| - 1][..n] == values[..n];
      RefusedStays(c, filter, values[..|values| - 1], n, sub, operation, value);
    } else {
      assert values[..n] == values;
    }
  }

  method ApplyFiltered(c: Comparers, target: Document, attribute: string, selector: Selector, sub: string,
                       operation: Operation, value: Value) returns (r: Outcome<Document>)
    requires !selector.Everything? && (selector.Where? ==> WellTyped(c, selector.filter))
    ensures r == Filtered(c, target, attribute, selector, sub, operation, value)
  {
    hide WellTyped, ChangedAll, Unselected, Selected;
    if attribute !in target || !target[attribute].Array? {
      return Refused(NoTarget);
    }
    if selector.NotMultiValued? {
      return Refused(InvalidPath);
    }
    if selector.BadFilter? {
      return Refused(InvalidFilter);
    }
    var items := target[attribute].items;
    var values := new Value[|items|](i requires 0 <= i < |items| => items[i]);
    assert values[..] == items;
    var matches := Matches(c, selector.filter, values);
    assert matches == {} <==> !AnySelected(c, selector.filter, items) by {
      assert forall i | 0 <= i < |items| :: values[i] == items[i];
      if matches != {} {
        var i :| i in matches;
        assert items[i] in items;
      }
    }
    if matches == {} {
      return if operation.Remove? then Done(target) else Refused(NoTarget);
    }
    if operation.Remove? && sub == "" {
      var n := Compact(c, selector.filter, values, matches);
      return Done(target[attribute := Array(values[..n])]);
    }
    var refusal := ChangeMatches(c, selector.filter, values, matches, sub, operation, value);
    r := if refusal.Some? then Refused(refusal.value) else Done(target[attribute := Array(values[..])]);
  }
}
