/** What a replacement may change: read-only attributes keep the stored value, immutable ones may
    not be edited, and both hold inside complex values. */
module Mutability {
  import opened Values
  import Schema

  type Attribute = Schema.Attribute

  function Fields(v: Value): Document { if v.Object? then v.fields else map[] }

  function Items(v: Value): seq<Value> { if v.Array? then v.items else [] }

  function ValueAt(d: Document, name: string): Value { if name in d then d[name] else Null }

  // ---------- which stored element an incoming one replaces ----------

  /** The last stored object with this value. */
  function ByValue(before: seq<Value>, text: string): Option<Document> {
    if before == [] then None
    else
      var last := before[|before| - 1];
      if last.Object? && ValueAt(last.fields, "value") == Text(text) then Some(last.fields)
      else ByValue(before[..|before| - 1], text)
  }

  /** The stored object with the same value, or else the one at the same position. */
  function Previous(before: seq<Value>, item: Document, index: nat): Option<Document> {
    var value := ValueAt(item, "value");
    var same := if value.Text? then ByValue(before, value.text) else None;
    if same.Some? then same
    else if index < |before| && before[index].Object? then Some(before[index].fields)
    else None
  }

  // ---------- enforcement ----------

  /** None is the mutability error. */
  function Enforce(current: Document, incoming: Document, attributes: seq<Attribute>): Option<Document>
    decreases attributes, 1
  {
    if attributes == [] then Some(incoming)
    else
      match EnforceOne(current, incoming, attributes[0])
      case None => None
      case Some(next) => Enforce(current, next, attributes[1..])
  }

  function EnforceOne(current: Document, incoming: Document, a: Attribute): Option<Document>
    decreases a, 0
  {
    var hadBefore, hadAfter := a.name in current, a.name in incoming;
    var before, after := ValueAt(current, a.name), ValueAt(incoming, a.name);
    if a.mutability == "readOnly" then
      Some(if hadBefore then incoming[a.name := before] else incoming - {a.name})
    else if a.mutability == "immutable" && hadBefore && hadAfter && before != after then None
    else
      var restored := if a.mutability == "immutable" && hadBefore && !hadAfter then incoming[a.name := before]
        else incoming;
      if a.kind != "complex" then Some(restored)
      else if !a.multiValued then
        if !after.Object? then Some(restored)
        else
          match Enforce(Fields(before), after.fields, a.subAttributes)
          case None => None
          case Some(fields) => Some(restored[a.name := Object(fields)])
      else if !after.Array? then Some(restored)
      else
        match EnforceItems(Items(before), after.items, 0, a.subAttributes)
        case None => None
        case Some(items) => Some(restored[a.name := Array(items)])
  }

  function EnforceItems(before: seq<Value>, after: seq<Value>, index: nat,
                        attributes: seq<Attribute>): Option<seq<Value>>
    decreases attributes, 2, |after| - index
  {
    if index >= |after| then Some(after)
    else if !after[index].Object? || Previous(before, after[index].fields, index).None? then
      EnforceItems(before, after, index + 1, attributes)
    else
      match Enforce(Previous(before, after[index].fields, index).value, after[index].fields, attributes)
      case None => None
      case Some(fields) => EnforceItems(before, after[index := Object(fields)], index + 1, attributes)
  }

  /** The loop over the attributes, on the incoming document itself. */
  method EnforceAttributes(current: Document, incoming: Document, attributes: seq<Attribute>)
    returns (r: Option<Document>)
    ensures r == Enforce(current, incoming, attributes)
  {
    hide EnforceOne;
    var document := incoming;
    for n := 0 to |attributes|
      invariant Enforce(current, incoming, attributes) == Enforce(current, document, attributes[n..])
    {
      assert attributes[n..][1..] == attributes[n + 1..];
      var next := EnforceOne(current, document, attributes[n]);
      if next.None? {
        return None;
      }
      document := next.value;
    }
    return Some(document);
  }

  /** The stored object at i has the text that the incoming one has as its value. */
  predicate SameValue(before: seq<Value>, i: int, item: Document) {
    && 0 <= i < |before| && before[i].Object? && "value" in before[i].fields && "value" in item
    && item["value"].Text? && before[i].fields["value"] == item["value"]
  }

  /** An incoming element stands for the last stored object with its value, or without one for the object at its
      own position, if there is one. */
  lemma PreviousMeans(before: seq<Value>, item: Document, index: nat)
    ensures forall i | SameValue(before, i, item) && (forall j | i < j < |before| :: !SameValue(before, j, item)) ::
      Previous(before, item, index) == Some(before[i].fields)
    ensures (forall i | 0 <= i < |before| :: !SameValue(before, i, item)) ==>
      Previous(before, item, index) ==
        if index < |before| && before[index].Object? then Some(before[index].fields) else None
  {
    if "value" in item && item["value"].Text? {
      ByValueFindsLast(before, item);
    }
  }

  lemma {:induction false} ByValueFindsLast(before: seq<Value>, item: Document)
    requires "value" in item && item["value"].Text?
    ensures var found := ByValue(before, item["value"].text);
      && (found.None? <==> forall i | 0 <= i < |before| :: !SameValue(before, i, item))
      && forall i | SameValue(before, i, item) && (forall j | i < j < |before| :: !SameValue(before, j, item)) ::
           found == Some(before[i].fields)
  {
    if before != [] {
      var init := before[..|before| - 1];
      ByValueFindsLast(init, item);
      assert forall i | 0 <= i < |init| :: SameValue(init, i, item) <==> SameValue(before, i, item);
      assert SameValue(before, |before| - 1, item) <==>
        before[|before| - 1].Object? && ValueAt(before[|before| - 1].fields, "value") == Text(item["value"].text);
    }
  }

  // ---------- what enforcement guarantees ----------

  ghost predicate SameAt(d: Document, e: Document, name: string) {
    (name in d <==> name in e) && (name in d ==> d[name] == e[name])
  }

  /** No two attributes of one object share a name, as registered schemas require. */
  ghost predicate DistinctNames(attributes: seq<Attribute>)
    decreases attributes
  {
    attributes == [] ||
    ((forall b | b in attributes[1..] :: b.name != attributes[0].name)
     && DistinctNames(attributes[0].subAttributes) && DistinctNames(attributes[1..]))
  }

  /** next keeps what current protects, given what was asked for in incoming. */
  ghost predicate Respects(current: Document, incoming: Document, next: Document, attributes: seq<Attribute>)
    decreases attributes, 1
  {
    attributes == [] ||
    (RespectsOne(current, incoming, next, attributes[0]) && Respects(current, incoming, next, attributes[1..]))
  }

  ghost predicate RespectsOne(current: Document, incoming: Document, next: Document, a: Attribute)
    decreases a, 0
  {
    && (a.mutability == "readOnly" ==> SameAt(current, next, a.name))
    && (a.mutability == "immutable" && a.name in current ==>
          && (a.name !in incoming || incoming[a.name] == current[a.name])
          && (a.name !in incoming || a.kind != "complex" ==> SameAt(current, next, a.name)))
    && (a.mutability != "readOnly" && a.name in incoming ==>
          && a.name in next
          && (a.kind != "complex" ==> next[a.name] == incoming[a.name])
          && (a.kind == "complex" && !a.multiValued && incoming[a.name].Object? ==>
                next[a.name].Object?
                && Respects(Fields(ValueAt(current, a.name)), incoming[a.name].fields, next[a.name].fields,
                            a.subAttributes))
          && (a.kind == "complex" && a.multiValued && incoming[a.name].Array? ==>
                next[a.name].Array?
                && RespectsItems(Items(ValueAt(current, a.name)), incoming[a.name].items, next[a.name].items,
                                 a.subAttributes)))
    && (a.mutability != "readOnly" && a.name !in incoming && a.name in next
      ==> a.mutability == "immutable" && a.name in current)
  }

  ghost predicate RespectsItems(before: seq<Value>, after: seq<Value>, next: seq<Value>, attributes: seq<Attribute>)
    decreases attributes, 2
  {
    && |next| == |after|
    && forall i | 0 <= i < |after| ::
         if after[i].Object? && Previous(before, after[i].fields, i).Some? then
           next[i].Object?
           && Respects(Previous(before, after[i].fields, i).value, after[i].fields, next[i].fields, attributes)
         else next[i] == after[i]
  }

  lemma EnforceOneElsewhere(current: Document, incoming: Document, a: Attribute, name: string)
    requires EnforceOne(current, incoming, a).Some? && name != a.name
    ensures SameAt(incoming, EnforceOne(current, incoming, a).value, name)
  {
    hide Enforce, EnforceItems;
  }

  lemma {:induction false} EnforceElsewhere(current: Document, incoming: Document, attributes: seq<Attribute>,
                                            name: string)
    requires Enforce(current, incoming, attributes).Some? && forall a | a in attributes :: a.name != name
    ensures SameAt(incoming, Enforce(current, incoming, attributes).value, name)
    decreases |attributes|
  {
    hide EnforceOne;
    if attributes != [] {
      EnforceOneElsewhere(current, incoming, attributes[0], name);
      EnforceElsewhere(current, EnforceOne(current, incoming, attributes[0]).value, attributes[1..], name);
    }
  }

  lemma EnforceOneRespects(current: Document, incoming: Document, a: Attribute)
    requires DistinctNames(a.subAttributes) && EnforceOne(current, incoming, a).Some?
    ensures RespectsOne(current, incoming, EnforceOne(current, incoming, a).value, a)
    decreases a, 0
  {
    hide Enforce, EnforceItems, Respects;
    if a.kind == "complex" && a.mutability != "readOnly" && a.name in incoming {
      var before, after := ValueAt(current, a.name), incoming[a.name];
      if !a.multiValued && after.Object? {
        EnforceRespects(Fields(before), after.fields, a.subAttributes);
      } else if a.multiValued && after.Array? {
        EnforceItemsRespects(Items(before), after.items, after.items, 0, a.subAttributes);
      }
    }
  }

  lemma {:induction false} EnforceItemsRespects(before: seq<Value>, asked: seq<Value>, after: seq<Value>, index: nat,
                                                attributes: seq<Attribute>)
    requires DistinctNames(attributes) && index <= |after| == |asked|
    requires forall i | index <= i < |after| :: after[i] == asked[i]
    requires RespectsItems(before, asked[..index], after[..index], attributes)
    requires EnforceItems(before, after, index, attributes).Some?
    ensures RespectsItems(before, asked, EnforceItems(before, after, index, attributes).value, attributes)
    decreases attributes, 2, |after| - index
  {
    hide Enforce, Respects, Previous, DistinctNames;
    if index == |after| {
      assert asked[..index] == asked && after[..index] == after;
    } else {
      var item := asked[index];
      var next := after;
      if item.Object? && Previous(before, item.fields, index).Some? {
        var previous := Previous(before, item.fields, index).value;
        EnforceRespects(previous, item.fields, attributes);
        next := after[index := Object(Enforce(previous, item.fields, attributes).value)];
      }
      assert asked[..index + 1] == asked[..index] + [asked[index]]
        && next[..index + 1] == after[..index] + [next[index]];
      EnforceItemsRespects(before, asked, next, index + 1, attributes);
    }
  }

  /** A predicate over attributes only looks at their names. */
  lemma {:induction false} RespectsAgree(current: Document, incoming: Document, other: Document, next: Document,
                                         attributes: seq<Attribute>)
    requires Respects(current, other, next, attributes) && forall a | a in attributes :: SameAt(incoming, other, a.name)
    ensures Respects(current, incoming, next, attributes)
    decreases |attributes|
  {
    hide RespectsItems;
    if attributes != [] {
      assert attributes[0] in attributes;
      RespectsAgree(current, incoming, other, next, attributes[1..]);
    }
  }

  lemma RespectsOneAgree(current: Document, incoming: Document, next: Document, other: Document, a: Attribute)
    requires RespectsOne(current, incoming, other, a) && SameAt(other, next, a.name)
    ensures RespectsOne(current, incoming, next, a)
  {
    hide Respects, RespectsItems;
  }

  /** A replacement that passes keeps every read-only attribute as it is stored, restores immutable
      attributes it leaves out, and otherwise is what was asked for; also inside complex values. */
  lemma {:induction false} EnforceRespects(current: Document, incoming: Document, attributes: seq<Attribute>)
    requires DistinctNames(attributes) && Enforce(current, incoming, attributes).Some?
    ensures Respects(current, incoming, Enforce(current, incoming, attributes).value, attributes)
    decreases attributes, 1
  {
    hide EnforceOne, RespectsOne;
    if attributes != [] {
      var a, rest := attributes[0], attributes[1..];
      var one := EnforceOne(current, incoming, a).value;
      var next := Enforce(current, incoming, attributes).value;
      EnforceOneRespects(current, incoming, a);
      EnforceRespects(current, one, rest);
      EnforceElsewhere(current, one, rest, a.name);
      RespectsOneAgree(current, incoming, next, one, a);
      forall b | b in rest
        ensures SameAt(incoming, one, b.name)
      {
        EnforceOneElsewhere(current, incoming, a, b.name);
      }
      RespectsAgree(current, incoming, one, next, rest);
    }
  }

  // ---------- when a replacement is refused ----------

  /** Some immutable attribute, at any depth, is stored with another value than the one asked for. */
  predicate Edits(current: Document, incoming: Document, attributes: seq<Attribute>)
    decreases attributes, 1
  {
    attributes != [] && (EditsOne(current, incoming, attributes[0]) || Edits(current, incoming, attributes[1..]))
  }

  predicate EditsOne(current: Document, incoming: Document, a: Attribute)
    decreases a, 0
  {
    && a.mutability != "readOnly" && a.name in incoming
    && var before, after := ValueAt(current, a.name), incoming[a.name];
       || (a.mutability == "immutable" && a.name in current && before != after)
       || (a.kind == "complex" && !a.multiValued && after.Object?
           && Edits(Fields(before), after.fields, a.subAttributes))
       || (a.kind == "complex" && a.multiValued && after.Array?
           && EditsItems(Items(before), after.items, a.subAttributes))
  }

  predicate EditsItems(before: seq<Value>, after: seq<Value>, attributes: seq<Attribute>)
    decreases attributes, 2
  {
    exists i | 0 <= i < |after| && after[i].Object? && Previous(before, after[i].fields, i).Some? ::
      Edits(Previous(before, after[i].fields, i).value, after[i].fields, attributes)
  }

  lemma {:induction false} EditsAgree(current: Document, incoming: Document, other: Document,
                                      attributes: seq<Attribute>)
    requires forall a | a in attributes :: SameAt(incoming, other, a.name)
    ensures Edits(current, incoming, attributes) == Edits(current, other, attributes)
    decreases |attributes|
  {
    hide EditsItems;
    if attributes != [] {
      assert attributes[0] in attributes;
      EditsAgree(current, incoming, other, attributes[1..]);
    }
  }

  lemma EditsOneIsRefused(current: Document, incoming: Document, a: Attribute)
    requires DistinctNames(a.subAttributes)
    ensures EnforceOne(current, incoming, a).None? <==> EditsOne(current, incoming, a)
    decreases a, 0
  {
    hide Enforce, EnforceItems, Edits, EditsItems;
    if a.kind == "complex" && a.name in incoming {
      var before, after := ValueAt(current, a.name), incoming[a.name];
      if !a.multiValued && after.Object? {
        OnlyEditsAreRefused(Fields(before), after.fields, a.subAttributes);
      } else if a.multiValued && after.Array? {
        EditedItemsAreRefused(Items(before), after.items, after.items, 0, a.subAttributes);
      }
    }
  }

  lemma {:induction false} EditedItemsAreRefused(before: seq<Value>, asked: seq<Value>, after: seq<Value>, index: nat,
                                                 attributes: seq<Attribute>)
    requires DistinctNames(attributes) && index <= |after| == |asked|
    requires forall i | index <= i < |after| :: after[i] == asked[i]
    requires forall i | 0 <= i < index && asked[i].Object? && Previous(before, asked[i].fields, i).Some? ::
               !Edits(Previous(before, asked[i].fields, i).value, asked[i].fields, attributes)
    ensures EnforceItems(before, after, index, attributes).None? <==> EditsItems(before, asked, attributes)
    decreases attributes, 2, |after| - index
  {
    hide Enforce, Edits, Previous, DistinctNames;
    if index < |after| {
      var item := asked[index];
      if item.Object? && Previous(before, item.fields, index).Some? {
        var previous := Previous(before, item.fields, index).value;
        OnlyEditsAreRefused(previous, item.fields, attributes);
        if Enforce(previous, item.fields, attributes).Some? {
          EditedItemsAreRefused(before, asked, after[index := Object(Enforce(previous, item.fields, attributes).value)],
                                index + 1, attributes);
        }
      } else {
        EditedItemsAreRefused(before, asked, after, index + 1, attributes);
      }
    }
  }

  /** A replacement is refused exactly when it edits an immutable attribute. */
  lemma {:induction false} OnlyEditsAreRefused(current: Document, incoming: Document, attributes: seq<Attribute>)
    requires DistinctNames(attributes)
    ensures Enforce(current, incoming, attributes).None? <==> Edits(current, incoming, attributes)
    decreases attributes, 1
  {
    hide EnforceOne, EditsOne;
    if attributes != [] {
      var a, rest := attributes[0], attributes[1..];
      EditsOneIsRefused(current, incoming, a);
      if EnforceOne(current, incoming, a).Some? {
        var one := EnforceOne(current, incoming, a).value;
        OnlyEditsAreRefused(current, one, rest);
        forall b | b in rest
          ensures SameAt(incoming, one, b.name)
        {
          EnforceOneElsewhere(current, incoming, a, b.name);
        }
        EditsAgree(current, incoming, one, rest);
      }
    }
  }
}
