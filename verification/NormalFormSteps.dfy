/** The loops of resource preparation: they edit a private copy key by key and element by element,
    and compute the functions of the module NormalForm. */
module NormalFormSteps {
  import opened Values
  import opened NormalForm
  import opened NormalFormFacts

  // ---------- unassigned values ----------

  function Assigned(d: Document, topLevel: bool): Document {
    if topLevel then TidyDocument(d) else Tidy(Object(d)).fields
  }

  lemma AssignedAt(d: Document, topLevel: bool, k: string)
    ensures var kept := k in d && ((topLevel && k == "schemas") || !Unassigned(d[k]));
      && (k in Assigned(d, topLevel) <==> kept)
      && (kept ==> Assigned(d, topLevel)[k] == if topLevel && k == "schemas" then d[k] else Tidy(d[k]))
  {
  }

  /** Deletes what is unassigned from the object, in any order of its keys. */
  method RemoveUnassigned(d: Document, topLevel: bool) returns (object': Document)
    ensures object' == Assigned(d, topLevel)
    decreases Object(d), 1
  {
    object' := d;
    var rest := d.Keys;
    while rest != {}
      invariant rest <= d.Keys
      invariant forall k | k in rest :: k in object' && object'[k] == d[k]
      invariant forall k | k !in rest :: k in object' <==> k in Assigned(d, topLevel)
      invariant forall k | k !in rest && k in object' :: object'[k] == Assigned(d, topLevel)[k]
      decreases rest
    {
      hide Assigned, Tidy, Unassigned;
      var key :| key in rest;
      rest := rest - {key};
      AssignedAt(d, topLevel, key);
      if !(topLevel && key == "schemas") {
        assert Object(d).fields == d;
        var kept := TidyValue(d[key]);
        object' := if kept.None? then object' - {key} else object'[key := kept.value];
      }
    }
  }

  /** The tidied value, or nothing when the key goes. */
  method TidyValue(v: Value) returns (r: Option<Value>)
    ensures r == if Unassigned(v) then None else Some(Tidy(v))
    decreases v, 2
  {
    match v
    case Array(items) =>
      var kept := TidyElementsOf(v, items);
      r := if kept == [] then None else Some(Array(kept));
    case Object(fields) =>
      var nested := RemoveUnassigned(fields, false);
      assert Object(fields) == v;
      r := Some(Object(nested));
    case _ =>
      r := if Blank(v) then None else Some(v);
  }

  method TidyElementsOf(ghost v: Value, items: seq<Value>) returns (kept: seq<Value>)
    requires v == Array(items)
    ensures kept == TidyItems(items) && (kept == [] <==> Unassigned(v))
    decreases v, 1
  {
    hide Tidy, TidyItems, TidyOne;
    kept := [];
    NothingToTidy(items);
    for i := 0 to |items|
      invariant kept == TidyItems(items[..i])
      invariant kept == [] <==> forall j | 0 <= j < i :: Blank(items[j])
    {
      TidyAppend(items[..i], items[i]);
      assert items[..i + 1] == items[..i] + [items[i]];
      var one := TidyElementOf(v, items[i]);
      kept := kept + one;
    }
    assert items[..|items|] == items;
  }

  method TidyElementOf(ghost v: Value, item: Value) returns (one: seq<Value>)
    requires v.Array? && item in v.items
    ensures one == TidyOne(item) && (one == [] <==> Blank(item))
    decreases v, 0
  {
    if Blank(item) {
      return [];
    }
    if !item.Object? {
      return [item];
    }
    var nested := RemoveUnassigned(item.fields, false);
    AssignedObject(item);
    return [Object(nested)];
  }

  lemma NothingToTidy(items: seq<Value>)
    ensures TidyItems(items[..0]) == []
  {
  }

  lemma AssignedObject(v: Value)
    requires v.Object?
    ensures Object(Assigned(v.fields, false)) == Tidy(v)
  {
    assert Object(v.fields) == v;
  }

  function TidyOne(v: Value): seq<Value> { if Blank(v) then [] else if v.Object? then [Tidy(v)] else [v] }

  lemma {:induction false} TidyAppend(items: seq<Value>, v: Value)
    ensures TidyItems(items + [v]) == TidyItems(items) + TidyOne(v)
    decreases |items|
  {
    hide Tidy, Blank;
    var all := items + [v];
    if items == [] {
      assert all == [v] && all[1..] == [];
    } else {
      TidyAppend(items[1..], v);
      assert all[0] == items[0] && all[1..] == items[1..] + [v];
      assert TidyItems(all) == TidyOne(items[0]) + (TidyItems(items[1..]) + TidyOne(v));
      assert TidyItems(items) == TidyOne(items[0]) + TidyItems(items[1..]);
    }
  }

  // ---------- primary values ----------

  /** Leaves at most one primary element in every array, the last one. */
  method NormalizePrimaryValues(d: Document) returns (object': Document)
    ensures object' == Balance(Object(d)).fields
    decreases Object(d), 1
  {
    object' := d;
    var rest := d.Keys;
    while rest != {}
      invariant rest <= d.Keys && object'.Keys == d.Keys
      invariant forall k | k in rest :: object'[k] == d[k]
      invariant forall k | k in d && k !in rest :: object'[k] == Balance(d[k])
      decreases rest
    {
      var key :| key in rest;
      rest := rest - {key};
      assert Object(d).fields == d;
      var value := BalanceValue(d[key]);
      object' := object'[key := value];
    }
  }

  method BalanceValue(v: Value) returns (r: Value)
    ensures r == Balance(v)
    decreases v, 2
  {
    match v
    case Array(items) =>
      var elements, last := BalanceElements(v, items);
      if last > 0 {
        elements := DemoteOthers(elements, last);
      }
      r := Array(elements);
    case Object(fields) =>
      var nested := NormalizePrimaryValues(fields);
      assert Object(fields) == v;
      r := Object(nested);
    case _ =>
      r := v;
  }

  method BalanceElements(ghost v: Value, items: seq<Value>) returns (elements: seq<Value>, last: nat)
    requires v == Array(items)
    ensures elements == Balanced(items) && last == AfterLastPrimary(elements)
    decreases v, 1
  {
    hide Balance;
    elements, last := items, 0;
    for i := 0 to |items|
      invariant |elements| == |items| && last <= i
      invariant forall k | 0 <= k < i :: elements[k] == Balanced(items)[k]
      invariant forall k | i <= k < |items| :: elements[k] == items[k]
      invariant last > 0 ==> IsPrimary(elements[last - 1])
      invariant forall k | last <= k < i :: !IsPrimary(elements[k])
    {
      if items[i].Object? {
        var nested := NormalizePrimaryValues(items[i].fields);
        BalanceOfObject(items[i]);
        elements := elements[i := Object(nested)];
        if IsPrimary(elements[i]) {
          last := i + 1;
        }
      }
    }
    if last > 0 {
      LastPrimaryIs(elements, last);
    }
  }

  lemma BalanceOfObject(v: Value)
    requires v.Object?
    ensures Object(Balance(Object(v.fields)).fields) == Balance(v)
  {
    assert Object(v.fields) == v;
  }

  method DemoteOthers(items: seq<Value>, last: nat) returns (elements: seq<Value>)
    requires last > 0 && last == AfterLastPrimary(items)
    ensures elements == OnePrimary(items)
  {
    hide AfterLastPrimary;
    elements := items;
    for i := 0 to |items|
      invariant |elements| == |items|
      invariant forall k | 0 <= k < i :: elements[k] == if k == last - 1 then items[k] else Demoted(items[k])
      invariant forall k | i <= k < |items| :: elements[k] == items[k]
    {
      if i + 1 != last && items[i].Object? && "primary" in items[i].fields {
        elements := elements[i := Object(items[i].fields["primary" := Bool(false)])];
      }
    }
  }

  // ---------- the schemas ----------

  /** Checks and respells the schemas while the document's extension keys are respelled beside them. */
  method ValidateSchemaSet(h: Host, def: Definition, d: Document) returns (r: Option<Document>)
    ensures r == SchemaSet(h, def, d)
  {
    var values := SchemaItems(d);
    if |values| == 0 || |values| > |def.extensions| + 1 {
      return None;
    }
    var document, seen, base := d, {}, false;
    var index := 0;
    while index < |values|
      invariant index <= |values|
      invariant SchemaSet(h, def, d) == SchemaLoop(h, def, document, values, index, seen, base)
      decreases |values| - index
    {
      if !values[index].Text? || values[index].text == "" || h.lower(values[index].text) in seen {
        return None;
      }
      var entry := values[index].text;
      if h.fold(entry) == h.fold(def.schema) {
        base := true;
        values := values[index := Value.Text(def.schema)];
        document := Respell(document, values);
      } else {
        var e := FindExtension(h, def.extensions, h.lower(entry));
        if e.None? {
          return None;
        }
        values := values[index := Value.Text(e.value.schema)];
        var admitted := AdmitExtension(h, Respell(document, values), e.value);
        if admitted.None? {
          return None;
        }
        document := admitted.value;
      }
      seen := seen + {h.lower(entry)};
      index := index + 1;
    }
    r := if base && RequiredPresent(h, def.extensions, seen) then Some(document) else None;
  }

  /** Preparation, step by step on the private copy. */
  method PrepareCopy(h: Host, def: Definition, copy: Document) returns (r: Option<Prepared>)
    ensures r == Prepare(h, def, copy)
  {
    hide SchemaSet, Strip, Balance, TidyDocument, Finish, Checked;
    if "password" in copy {
      return None;
    }
    var document := StripExtensions(Strip(copy - {"id", "meta", "groups"}, def.attributes), def.extensions);
    document := RemoveUnassigned(document, true);
    document := NormalizePrimaryValues(document);
    var settled := ValidateSchemaSet(h, def, document);
    if settled.None? {
      return None;
    }
    var checked := Checked(h, def, settled.value);
    if checked.None? {
      return None;
    }
    r := Finish(h, def, checked.value);
  }
}
