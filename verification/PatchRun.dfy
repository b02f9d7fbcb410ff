/** A PATCH request on a private working copy, and what its operations leave alone. */
module PatchRun {
  import opened Values
  import opened FilterMeaning
  import opened Patch

  /** A decoded operation: without a path, with one the schema does not know, or with a parsed one. */
  datatype Target = Whole | Unknown | At(path: PatchPath)

  datatype Instruction = Instruction(operation: Operation, target: Target, value: Value)

  // ---------- one operation ----------

  function Entries(d: Document): seq<Value> {
    if "schemas" in d && d["schemas"].Array? then d["schemas"].items else []
  }

  predicate Lists(fold: string -> string, values: seq<Value>, schema: string) {
    exists i | 0 <= i < |values| :: values[i].Text? && fold(values[i].text) == fold(schema)
  }

  function EnsureSchema(fold: string -> string, d: Document, schema: string): Document {
    if Lists(fold, Entries(d), schema) then d else d["schemas" := Array(Entries(d) + [Text(schema)])]
  }

  /** The object a path is applied to, and the document around it. */
  function Enter(fold: string -> string, d: Document, i: Instruction): Outcome<(Document, Document)>
    requires i.target.At?
  {
    var p := i.target.path;
    if p.extension == "" then Done((d, d))
    else if p.extension !in d then
      if !i.operation.Add? || !p.selector.Everything? then Refused(NoTarget)
      else Done((EnsureSchema(fold, d[p.extension := Object(map[])], p.extension), map[]))
    else
      match d[p.extension]
      case Object(fields) => Done((d, fields))
      case _ => Refused(InvalidPath)
  }

  function Leave(d: Document, extension: string, inner: Document): Document {
    if extension == "" then inner else d[extension := Object(inner)]
  }

  ghost function Within(c: Comparers, inner: Document, i: Instruction): Outcome<Document>
    requires i.target.At?
  {
    var p := i.target.path;
    if !p.selector.Everything? then Filtered(c, inner, p.attribute, p.selector, p.sub, i.operation, i.value)
    else if p.extension == "" && p.attribute == "password" && p.sub == "" && !i.operation.Remove? then
      Done(inner[p.attribute := i.value])
    else Direct(inner, p.attribute, p.sub, i.operation, i.value)
  }

  ghost function Applied(c: Comparers, d: Document, i: Instruction): Outcome<Document> {
    match i.target
    case Whole => Pathless(d, i.operation, i.value)
    case Unknown => Refused(InvalidPath)
    case At(p) =>
      match Enter(c.fold, d, i)
      case Refused(reason) => Refused(reason)
      case Done((around, inner)) =>
        match Within(c, inner, i)
        case Refused(reason) => Refused(reason)
        case Done(next) => Done(Leave(around, p.extension, next))
  }

  ghost function AppliedAll(c: Comparers, d: Document, ops: seq<Instruction>): Outcome<Document> {
    if ops == [] then Done(d)
    else
      match AppliedAll(c, d, ops[..|ops| - 1])
      case Refused(reason) => Refused(reason)
      case Done(next) => Applied(c, next, ops[|ops| - 1])
  }

  /** Every extension that is there is listed at the end. */
  function EnsureSchemas(fold: string -> string, d: Document, extensions: seq<string>): Document {
    if extensions == [] then d
    else
      var init := EnsureSchemas(fold, d, extensions[..|extensions| - 1]);
      var last := extensions[|extensions| - 1];
      if last in init then EnsureSchema(fold, init, last) else init
  }

  ghost function PatchedDocument(c: Comparers, d: Document, ops: seq<Instruction>,
                                 extensions: seq<string>): Outcome<Document> {
    match AppliedAll(c, d, ops)
    case Refused(reason) => Refused(reason)
    case Done(next) => Done(EnsureSchemas(c.fold, next, extensions))
  }

  // ---------- the working copy ----------

  predicate Checked(c: Comparers, i: Instruction) {
    i.target.At? && i.target.path.selector.Where? ==> WellTyped(c, i.target.path.selector.filter)
  }

  class WorkingCopy {
    const compare: Comparers
    var document: Document

    constructor (compare: Comparers, d: Document)
      ensures document == d && this.compare == compare
    {
      this.compare, document := compare, d;
    }

    method ListSchema(schema: string)
      modifies this
      ensures document == EnsureSchema(compare.fold, old(document), schema)
    {
      var values := Entries(document);
      for k := 0 to |values|
        invariant document == old(document)
        invariant forall j | 0 <= j < k :: !(values[j].Text? && compare.fold(values[j].text) == compare.fold(schema))
      {
        if values[k].Text? && compare.fold(values[k].text) == compare.fold(schema) {
          return;
        }
      }
      document := document["schemas" := Array(values + [Text(schema)])];
    }

    /** After a refusal the copy is of no use, and it is thrown away. */
    method Apply(i: Instruction) returns (refusal: Option<Refusal>)
      requires Checked(compare, i)
      modifies this
      ensures match Applied(compare, old(document), i)
              case Refused(reason) => refusal == Some(reason)
              case Done(next) => refusal == None && document == next
    {
      hide Filtered, WellTyped, Direct, Pathless;
      if i.target.Unknown? {
        return Some(InvalidPath);
      }
      if i.target.Whole? {
        var whole := Pathless(document, i.operation, i.value);
        if whole.Refused? {
          return Some(whole.reason);
        }
        document := whole.value;
        return None;
      }
      var p := i.target.path;
      var inner := document;
      if p.extension != "" {
        if p.extension !in document {
          if !i.operation.Add? || !p.selector.Everything? {
            return Some(NoTarget);
          }
          inner := map[];
          document := document[p.extension := Object(inner)];
          ListSchema(p.extension);
        } else if !document[p.extension].Object? {
          return Some(InvalidPath);
        } else {
          inner := document[p.extension].fields;
        }
      }
      refusal := Below(inner, i);
    }

    method Below(inner: Document, i: Instruction) returns (refusal: Option<Refusal>)
      requires Checked(compare, i) && i.target.At?
      modifies this
      ensures match Within(compare, inner, i)
              case Refused(reason) => refusal == Some(reason)
              case Done(next) => refusal == None && document == Leave(old(document), i.target.path.extension, next)
    {
      hide Filtered, WellTyped, Direct;
      var p := i.target.path;
      var next: Outcome<Document>;
      if !p.selector.Everything? {
        next := ApplyFiltered(compare, inner, p.attribute, p.selector, p.sub, i.operation, i.value);
      } else if p.extension == "" && p.attribute == "password" && p.sub == "" && !i.operation.Remove? {
        next := Done(inner[p.attribute := i.value]);
      } else {
        next := Direct(inner, p.attribute, p.sub, i.operation, i.value);
      }
      if next.Refused? {
        return Some(next.reason);
      }
      document := Leave(document, p.extension, next.value);
      return None;
    }
  }

  method ApplyPatchDocument(c: Comparers, current: Document, ops: seq<Instruction>, extensions: seq<string>)
    returns (r: Outcome<Document>)
    requires forall i | i in ops :: Checked(c, i)
    ensures r == PatchedDocument(c, current, ops, extensions)
  {
    hide Applied, EnsureSchema;
    var working := new WorkingCopy(c, current);
    for n := 0 to |ops|
      invariant fresh(working) && working.compare == c
      invariant AppliedAll(c, current, ops[..n]) == Done(working.document)
    {
      assert ops[..n + 1][..n] == ops[..n] && ops[n] in ops;
      var refusal := working.Apply(ops[n]);
      if refusal.Some? {
        RefusedOnce(c, current, ops, n + 1);
        return Refused(refusal.value);
      }
    }
    assert ops[..|ops|] == ops;
    ghost var applied := working.document;
    for n := 0 to |extensions|
      invariant fresh(working) && working.compare == c
      invariant working.document == EnsureSchemas(c.fold, applied, extensions[..n])
    {
      assert extensions[..n + 1][..n] == extensions[..n];
      if extensions[n] in working.document {
        working.ListSchema(extensions[n]);
      }
    }
    assert extensions[..|extensions|] == extensions;
    return Done(working.document);
  }

  lemma {:induction false} RefusedOnce(c: Comparers, d: Document, ops: seq<Instruction>, n: nat)
    requires n <= |ops| && AppliedAll(c, d, ops[..n]).Refused?
    ensures AppliedAll(c, d, ops) == AppliedAll(c, d, ops[..n])
    decreases |ops|
  {
    hide Applied;
    if n < |ops| {
      assert ops[..|ops| - 1][..n] == ops[..n];
      RefusedOnce(c, d, ops[..|ops| - 1], n);
    } else {
      assert ops[..n] == ops;
    }
  }

  // ---------- repeating an addition ----------

  lemma {:induction false} MergedHasAll(values: seq<Value>, additions: seq<Value>)
    ensures values <= Merged(values, additions)
    ensures forall x | x in additions :: x in Merged(values, additions)
    decreases |additions|
  {
    if additions != [] {
      var next := if additions[0] in values then values else values + [additions[0]];
      MergedHasAll(next, additions[1..]);
      assert additions[0] in next;
      var all := Merged(values, additions);
      assert forall x | x in next :: x in all[..|next|];
    }
  }

  lemma {:induction false} NothingToMerge(values: seq<Value>, additions: seq<Value>)
    requires forall x | x in additions :: x in values
    ensures Merged(values, additions) == values
    decreases |additions|
  {
    if additions != [] {
      NothingToMerge(values, additions[1..]);
    }
  }

  lemma AddedTwice(target: Document, attribute: string, value: Value)
    ensures Added(Added(target, attribute, value), attribute, value) == Added(target, attribute, value)
  {
    var once := Added(target, attribute, value);
    if attribute in target && target[attribute].Array? {
      var additions := if value.Array? then value.items else [value];
      MergedHasAll(target[attribute].items, additions);
      NothingToMerge(once[attribute].items, additions);
      assert once[attribute := once[attribute]] == once;
    } else if value.Array? {
      NothingToMerge(value.items, value.items);
      assert once[attribute := once[attribute]] == once;
    }
  }

  lemma DirectAddTwice(target: Document, attribute: string, sub: string, value: Value)
    requires Direct(target, attribute, sub, Add, value).Done?
    ensures var once := Direct(target, attribute, sub, Add, value).value;
      Direct(once, attribute, sub, Add, value) == Done(once)
  {
    var once := Direct(target, attribute, sub, Add, value).value;
    if sub == "" {
      AddedTwice(target, attribute, value);
    } else {
      if attribute in target {
        AddedTwice(target[attribute].fields, sub, value);
      } else {
        AddedTwice(map[], sub, value);
        assert Added(map[], sub, value) == map[sub := value];
      }
      assert once[attribute := once[attribute]] == once;
    }
  }

  lemma AddedOnlyReads(target: Document, other: Document, attribute: string, value: Value)
    requires (attribute in target <==> attribute in other)
      && (attribute in target ==> target[attribute] == other[attribute])
    ensures Added(target, attribute, value)[attribute] == Added(other, attribute, value)[attribute]
  {
  }

  lemma PathlessAddTwice(target: Document, value: Value)
    requires value.Object?
    ensures var once := Pathless(target, Add, value).value; Pathless(once, Add, value) == Done(once)
  {
    var once := Pathless(target, Add, value).value;
    var twice := Pathless(once, Add, value).value;
    forall k | k in value.fields
      ensures twice[k] == once[k]
    {
      AddedTwice(target, k, value.fields[k]);
      AddedOnlyReads(once, Added(target, k, value.fields[k]), k, value.fields[k]);
    }
    assert twice.Keys == once.Keys;
    assert twice == once;
  }

  /** Repeating an addition that has no filter changes nothing, whatever it adds and wherever. */
  lemma RepeatedAddChangesNothing(c: Comparers, d: Document, i: Instruction)
    requires i.operation.Add?
      && (i.target.At? ==> i.target.path.selector.Everything? && i.target.path.extension != "schemas")
    requires Applied(c, d, i).Done?
    ensures Applied(c, Applied(c, d, i).value, i) == Done(Applied(c, d, i).value)
  {
    hide Direct, Pathless, Lists;
    var once := Applied(c, d, i).value;
    match i.target
    case Whole =>
      PathlessIsDone(d, i.operation, i.value);
      PathlessAddTwice(d, i.value);
    case At(p) =>
      var inner := Enter(c.fold, d, i).value.1;
      if p.extension == "" && p.attribute == "password" && p.sub == "" {
        assert once[p.attribute := i.value] == once;
      } else {
        DirectAddTwice(inner, p.attribute, p.sub, i.value);
        if p.extension != "" {
          assert once[p.extension := once[p.extension]] == once;
        }
      }
  }

  lemma PathlessIsDone(d: Document, operation: Operation, value: Value)
    ensures Pathless(d, operation, value).Done? ==> value.Object?
  {
  }

  // ---------- filtered operations ----------

  /** The elements that stay are exactly those not selected, each as often as before. */
  lemma {:induction false} UnselectedIsTheRest(c: Comparers, filter: Bound, values: seq<Value>, x: Value)
    ensures multiset(Unselected(c, filter, values))[x] == if Selected(c, filter, x) then 0 else multiset(values)[x]
  {
    if values != [] {
      assert values == values[..|values| - 1] + [values[|values| - 1]];
      UnselectedIsTheRest(c, filter, values[..|values| - 1], x);
    }
  }

  /** And their order is kept: what stays of a front comes before what stays of the back. */
  lemma {:induction false} UnselectedKeepsOrder(c: Comparers, filter: Bound, front: seq<Value>, back: seq<Value>)
    ensures Unselected(c, filter, front + back) == Unselected(c, filter, front) + Unselected(c, filter, back)
    decreases |back|
  {
    hide Selected;
    if back == [] {
      assert front + back == front;
    } else {
      var all := front + back;
      assert all[..|all| - 1] == front + back[..|back| - 1];
      UnselectedKeepsOrder(c, filter, front, back[..|back| - 1]);
    }
  }

  lemma {:induction false} ChangedAllIsPointwise(c: Comparers, filter: Bound, values: seq<Value>, sub: string,
                                                 operation: Operation, value: Value)
    requires ChangedAll(c, filter, values, sub, operation, value).Done?
    ensures var changed := ChangedAll(c, filter, values, sub, operation, value).value;
      && |changed| == |values|
      && forall k | 0 <= k < |values| ::
           if Selected(c, filter, values[k]) then
             var item := Changed(values[k].fields, sub, operation, value);
             item.Done? && changed[k] == Object(item.value)
           else changed[k] == values[k]
  {
    hide Holds, Changed;
    if values != [] {
      ChangedAllIsPointwise(c, filter, values[..|values| - 1], sub, operation, value);
    }
  }

  /** A filtered operation that is carried out changes nothing but the selected elements: other
      attributes and other elements stay, and a remove without a sub-attribute leaves exactly the
      elements not selected. */
  lemma FilteredTouchesOnlyMatches(c: Comparers, target: Document, attribute: string, selector: Selector, sub: string,
                                   operation: Operation, value: Value)
    requires !selector.Everything? && Filtered(c, target, attribute, selector, sub, operation, value).Done?
    ensures var next := Filtered(c, target, attribute, selector, sub, operation, value).value;
      && selector.Where? && attribute in target && target[attribute].Array? && next.Keys == target.Keys
        && next[attribute].Array?
      && (forall k | k in target && k != attribute :: next[k] == target[k])
      && var before, after := target[attribute].items, next[attribute].items;
         if operation.Remove? && sub == "" then after == Unselected(c, selector.filter, before)
         else
           && |after| == |before|
           && forall k | 0 <= k < |before| ::
                if Selected(c, selector.filter, before[k]) then
                  var item := Changed(before[k].fields, sub, operation, value);
                  item.Done? && after[k] == Object(item.value)
                else after[k] == before[k]
  {
    hide Selected, ChangedAll, Changed;
    var before := target[attribute].items;
    if !AnySelected(c, selector.filter, before) {
      forall k | 0 <= k < |before|
        ensures !Selected(c, selector.filter, before[k])
      {
        assert before[k] in before;
      }
      NothingSelected(c, selector.filter, before);
    } else if !(operation.Remove? && sub == "") {
      ChangedAllIsPointwise(c, selector.filter, before, sub, operation, value);
    }
  }

  lemma {:induction false} NothingSelected(c: Comparers, filter: Bound, values: seq<Value>)
    requires forall v | v in values :: !Selected(c, filter, v)
    ensures Unselected(c, filter, values) == values
  {
    hide Selected;
    if values != [] {
      NothingSelected(c, filter, values[..|values| - 1]);
    }
  }

  lemma ChangedTwice(item: Document, sub: string, value: Value)
    requires Changed(item, sub, Add, value).Done?
    ensures var once := Changed(item, sub, Add, value).value; Changed(once, sub, Add, value) == Done(once)
  {
    if sub == "" {
      assert item + value.fields + value.fields == item + value.fields;
    } else {
      AddedTwice(item, sub, value);
    }
  }

  lemma {:induction false} ChangedAllTwice(c: Comparers, filter: Bound, values: seq<Value>, sub: string, value: Value)
    requires ChangedAll(c, filter, values, sub, Add, value).Done?
    ensures var once := ChangedAll(c, filter, values, sub, Add, value).value;
      ChangedAll(c, filter, once, sub, Add, value) == Done(once)
  {
    hide Holds, Changed;
    if values != [] {
      var last := values[|values| - 1];
      ChangedAllTwice(c, filter, values[..|values| - 1], sub, value);
      var once := ChangedAll(c, filter, values, sub, Add, value).value;
      var init := ChangedAll(c, filter, values[..|values| - 1], sub, Add, value).value;
      assert once[..|once| - 1] == init;
      if Selected(c, filter, last) {
        ChangedTwice(last.fields, sub, value);
      }
    }
  }

  /** An element that matches, and still does after the addition. */
  ghost predicate MatchesAgain(c: Comparers, filter: Bound, v: Value, sub: string, value: Value) {
    && Selected(c, filter, v)
    && var item := Changed(v.fields, sub, Add, value);
       item.Done? && Selected(c, filter, Object(item.value))
  }

  lemma StillSelected(c: Comparers, filter: Bound, values: seq<Value>, sub: string, value: Value)
    requires ChangedAll(c, filter, values, sub, Add, value).Done?
    ensures AnySelected(c, filter, ChangedAll(c, filter, values, sub, Add, value).value) <==>
      exists v | v in values :: MatchesAgain(c, filter, v, sub, value)
  {
    hide Changed, ChangedAll, Holds;
    var changed := ChangedAll(c, filter, values, sub, Add, value).value;
    ChangedAllIsPointwise(c, filter, values, sub, Add, value);
    if AnySelected(c, filter, changed) {
      var w :| w in changed && Selected(c, filter, w);
      var k :| 0 <= k < |changed| && changed[k] == w;
      assert values[k] in values && MatchesAgain(c, filter, values[k], sub, value);
    }
    if v :| v in values && MatchesAgain(c, filter, v, sub, value) {
      var k :| 0 <= k < |values| && values[k] == v;
      assert changed[k] in changed && Selected(c, filter, changed[k]);
    }
  }

  /** A repeated filtered addition changes nothing when some element matches and still matches after
      the addition; otherwise it finds no target: the first one has edited what the filter asks for. */
  lemma RepeatedFilteredAdd(c: Comparers, target: Document, attribute: string, filter: Bound, sub: string, value: Value)
    requires Filtered(c, target, attribute, Where(filter), sub, Add, value).Done?
    ensures attribute in target && target[attribute].Array?
    ensures var once := Filtered(c, target, attribute, Where(filter), sub, Add, value).value;
      Filtered(c, once, attribute, Where(filter), sub, Add, value) ==
        if exists v | v in target[attribute].items :: MatchesAgain(c, filter, v, sub, value) then Done(once)
        else Refused(NoTarget)
  {
    hide AnySelected, ChangedAll, MatchesAgain;
    var once := Filtered(c, target, attribute, Where(filter), sub, Add, value).value;
    ChangedAllTwice(c, filter, target[attribute].items, sub, value);
    StillSelected(c, filter, target[attribute].items, sub, value);
    assert once[attribute := once[attribute]] == once;
  }

  /** One such addition: the work address becomes a home address, and there is no work address left. */
  lemma FilteredAddMayLoseItsTarget(c: Comparers)
    ensures var filter := FilterMeaning.Inside(BoundComparison(Plain("type"), "eq", Text("work")));
            var target := map["emails" := Array([Object(map["type" := Text("work")])])];
      && Filtered(c, target, "emails", Where(filter), "type", Add, Text("home")).Done?
      && Filtered(c, Filtered(c, target, "emails", Where(filter), "type", Add, Text("home")).value,
                  "emails", Where(filter), "type", Add, Text("home")) == Refused(NoTarget)
  {
    hide Holds;
    var filter := FilterMeaning.Inside(BoundComparison(Plain("type"), "eq", Text("work")));
    var work: Document := map["type" := Text("work")];
    var home: Document := map["type" := Text("home")];
    var values := [Object(work)];
    InsideIsEquality(c, "type", "work", work);
    InsideIsEquality(c, "type", "work", home);
    assert Object(work).fields == work && Object(home).fields == home;
    assert Selected(c, filter, Object(work)) && !Selected(c, filter, Object(home));
    assert Changed(work, "type", Add, Text("home")) == Done(home) by {
      assert work["type" := Text("home")] == home;
    }
    assert values[..0] == [] && values[0] in values;
    ChangesNothing(c, filter, "type", Add, Text("home"));
    ChangesOneMore(c, filter, values, 0, [], "type", Add, Text("home"));
    assert values[..1] == values;
    assert !AnySelected(c, filter, [Object(home)]);
  }

  // ---------- the schemas of a patched resource ----------

  lemma EnsureSchemaLists(fold: string -> string, d: Document, schema: string)
    ensures var e := EnsureSchema(fold, d, schema);
      && Lists(fold, Entries(e), schema) && Entries(d) <= Entries(e)
      && forall k | k != "schemas" :: (k in e <==> k in d) && (k in d ==> e[k] == d[k])
  {
    var e := EnsureSchema(fold, d, schema);
    if !Lists(fold, Entries(d), schema) {
      assert Entries(e)[|Entries(d)|] == Text(schema);
    }
  }

  /** Every extension a patched resource carries is among its schemas. */
  lemma {:induction false} PatchedExtensionsAreListed(fold: string -> string, d: Document, extensions: seq<string>)
    requires "schemas" !in extensions
    ensures var e := EnsureSchemas(fold, d, extensions);
      && (forall x | x in extensions && x in e :: Lists(fold, Entries(e), x))
      && Entries(d) <= Entries(e)
      && forall k | k != "schemas" :: (k in e <==> k in d) && (k in d ==> e[k] == d[k])
  {
    hide EnsureSchema;
    if extensions != [] {
      var rest, last := extensions[..|extensions| - 1], extensions[|extensions| - 1];
      PatchedExtensionsAreListed(fold, d, rest);
      var init := EnsureSchemas(fold, d, rest);
      EnsureSchemaLists(fold, init, last);
      var e := EnsureSchemas(fold, d, extensions);
      forall x | x in extensions && x in e
        ensures Lists(fold, Entries(e), x)
      {
        if x != last || last !in init {
          assert x in rest || x == last;
          if Lists(fold, Entries(init), x) {
            var i :| 0 <= i < |Entries(init)| && Entries(init)[i].Text? && fold(Entries(init)[i].text) == fold(x);
            assert Entries(e)[i] == Entries(init)[i];
          }
        }
      }
    }
  }
}
