/** What PATCH operations do, told by reading documents at paths: what an accepted operation leaves, and
    exactly when one is refused. */
module PatchLaws {
  import opened Values
  import opened FilterMeaning
  import opened Patch
  import PatchRun

  // ---------- reading ----------

  /** What stands at a path of names, through objects. */
  function Read(d: Document, path: seq<string>): Option<Value>
    decreases |path|
  {
    if path == [] then Some(Object(d))
    else if path[0] !in d then None
    else if |path| == 1 then Some(d[path[0]])
    else if d[path[0]].Object? then Read(d[path[0]].fields, path[1..])
    else None
  }

  /** Neither path leads through the other. */
  predicate Apart(p: seq<string>, q: seq<string>) { !(p <= q) && !(q <= p) }

  /** All paths that do not meet this one read as before. */
  ghost predicate SameApart(d: Document, next: Document, path: seq<string>) {
    forall q | Apart(path, q) :: Read(next, q) == Read(d, q)
  }

  // ---------- what an operation leaves at its path ----------

  function FirstAt(s: seq<Value>, x: Value): nat
    requires x in s
  {
    if s[0] == x then 0 else 1 + FirstAt(s[1..], x)
  }

  /** The additions that were missing, each once and in their order, behind the items. */
  ghost predicate Grown(items: seq<Value>, additions: seq<Value>, grown: seq<Value>) {
    && items <= grown
    && (forall x | x in additions :: x in grown)
    && (forall j | |items| <= j < |grown| :: grown[j] in additions && grown[j] !in grown[..j])
    && forall j, k | |items| <= j < k < |grown| && grown[j] in additions && grown[k] in additions ::
         FirstAt(additions, grown[j]) < FirstAt(additions, grown[k])
  }

  /** A value added where nothing, an array or something else stood. */
  ghost predicate AddedTo(before: Option<Value>, value: Value, after: Option<Value>) {
    if before.Some? && before.value.Array? then
      && after.Some? && after.value.Array?
      && Grown(before.value.items, if value.Array? then value.items else [value], after.value.items)
    else after == Some(value)
  }

  ghost predicate Leaves(operation: Operation, before: Option<Value>, value: Value, after: Option<Value>) {
    match operation
    case Remove => after == None
    case Replace => after == Some(value)
    case Add => AddedTo(before, value, after)
  }

  lemma {:induction false} MergedIsGrown(items: seq<Value>, additions: seq<Value>)
    ensures Grown(items, additions, Merged(items, additions))
    decreases |additions|
  {
    hide Grown;
    if additions == [] {
      NothingGrows(items);
    } else if additions[0] in items {
      MergedIsGrown(items, additions[1..]);
      GrowsWithout(items, additions, Merged(items, additions));
    } else {
      MergedIsGrown(items + [additions[0]], additions[1..]);
      GrowsWith(items, additions, Merged(items, additions));
    }
  }

  lemma NothingGrows(items: seq<Value>)
    ensures Grown(items, [], items)
  {
  }

  lemma FirstBehind(additions: seq<Value>, y: Value)
    requires additions != [] && y in additions[1..] && y != additions[0]
    ensures y in additions && FirstAt(additions, y) == 1 + FirstAt(additions[1..], y)
  {
  }

  lemma GrowsWithout(items: seq<Value>, additions: seq<Value>, grown: seq<Value>)
    requires additions != [] && additions[0] in items && Grown(items, additions[1..], grown)
    ensures Grown(items, additions, grown)
  {
    var x, rest := additions[0], additions[1..];
    assert forall y :: y in additions <==> y == x || y in rest;
    forall j | |items| <= j < |grown|
      ensures grown[j] in additions && FirstAt(additions, grown[j]) == 1 + FirstAt(rest, grown[j])
    {
      assert items <= grown[..j] && x in grown[..j];
      FirstBehind(additions, grown[j]);
    }
    hide FirstAt;
  }

  lemma GrowsWith(items: seq<Value>, additions: seq<Value>, grown: seq<Value>)
    requires additions != [] && additions[0] !in items && Grown(items + [additions[0]], additions[1..], grown)
    ensures Grown(items, additions, grown)
  {
    var x, rest := additions[0], additions[1..];
    assert forall y :: y in additions <==> y == x || y in rest;
    assert (items + [x])[|items|] == x && grown[..|items|] == items;
    assert x in additions && FirstAt(additions, x) == 0;
    forall j | |items| < j < |grown|
      ensures grown[j] in additions && FirstAt(additions, grown[j]) == 1 + FirstAt(rest, grown[j])
    {
      assert grown[..j][|items|] == x;
      FirstBehind(additions, grown[j]);
    }
    hide FirstAt;
  }

  // ---------- operations without a filter ----------

  function PathOf(attribute: string, sub: string): seq<string> { if sub == "" then [attribute] else [attribute, sub] }

  /** Why an operation without a filter is refused: its target or the parent of its target is missing, or the
      parent is no object. */
  function RefusalOf(d: Document, attribute: string, sub: string, operation: Operation): Option<Refusal> {
    if sub != "" && attribute in d && !d[attribute].Object? then Some(InvalidPath)
    else if !operation.Add? && Read(d, PathOf(attribute, sub)).None? then Some(NoTarget)
    else None
  }

  lemma OneName(d: Document, attribute: string, operation: Operation, value: Value)
    requires DirectOne(d, attribute, operation, value).Done?
    ensures var next := DirectOne(d, attribute, operation, value).value;
      && Leaves(operation, Read(d, [attribute]), value, Read(next, [attribute]))
      && forall k | k != attribute :: (k in next <==> k in d) && (k in d ==> next[k] == d[k])
  {
    if operation.Add? && attribute in d && d[attribute].Array? {
      MergedIsGrown(d[attribute].items, if value.Array? then value.items else [value]);
    }
  }

  lemma PrefixOfOne(a: string, q: seq<string>)
    ensures [a] <= q <==> q != [] && q[0] == a
    ensures q <= [a] <==> q == [] || q == [a]
  {
  }

  lemma PrefixOfTwo(a: string, b: string, q: seq<string>)
    ensures [a, b] <= q <==> |q| >= 2 && q[0] == a && q[1] == b
    ensures q <= [a, b] <==> q == [] || q == [a] || q == [a, b]
  {
  }

  lemma SameAtOthers(d: Document, next: Document, attribute: string)
    requires forall k | k != attribute :: (k in next <==> k in d) && (k in d ==> next[k] == d[k])
    ensures SameApart(d, next, [attribute])
  {
    forall q | Apart([attribute], q)
      ensures Read(next, q) == Read(d, q)
    {
      PrefixOfOne(attribute, q);
    }
  }

  lemma SameBelow(d: Document, next: Document, attribute: string, sub: string)
    requires attribute in next && next[attribute].Object? && (attribute in d ==> d[attribute].Object?)
    requires forall k | k != attribute :: (k in next <==> k in d) && (k in d ==> next[k] == d[k])
    requires SameApart(if attribute in d then d[attribute].fields else map[], next[attribute].fields, [sub])
    ensures SameApart(d, next, [attribute, sub])
  {
    forall q | Apart([attribute, sub], q)
      ensures Read(next, q) == Read(d, q)
    {
      PrefixOfTwo(attribute, sub, q);
      if q[0] == attribute {
        var rest := q[1..];
        assert q == [attribute] + rest;
        PrefixOfOne(sub, rest);
        NothingThere(rest);
      }
    }
  }

  lemma NothingThere(q: seq<string>)
    requires q != []
    ensures Read(map[], q) == None
  {
  }

  /** An operation at an attribute or sub-attribute: refused exactly for that, and otherwise it leaves at its
      path what it should and everything apart from it as it was; what a sub-attribute stands in stays an object. */
  lemma DirectLeaves(d: Document, attribute: string, sub: string, operation: Operation, value: Value)
    ensures RefusalOf(d, attribute, sub, operation).Some? ==>
      Direct(d, attribute, sub, operation, value) == Refused(RefusalOf(d, attribute, sub, operation).value)
    ensures RefusalOf(d, attribute, sub, operation).None? ==>
      && Direct(d, attribute, sub, operation, value).Done?
      && var next, path := Direct(d, attribute, sub, operation, value).value, PathOf(attribute, sub);
         && SameApart(d, next, path)
         && Leaves(operation, Read(d, path), value, Read(next, path))
         && (sub != "" ==> attribute in next && next[attribute].Object?)
  {
    if sub == "" {
      if RefusalOf(d, attribute, sub, operation).None? {
        OneName(d, attribute, operation, value);
        SameAtOthers(d, DirectOne(d, attribute, operation, value).value, attribute);
      }
    } else if attribute !in d {
      if operation.Add? {
        var next := d[attribute := Object(map[sub := value])];
        NewParent(d, next, attribute, sub, value);
      }
    } else if d[attribute].Object? {
      var fields := d[attribute].fields;
      assert Read(d, [attribute, sub]) == Read(fields, [sub]) by { assert [attribute, sub][1..] == [sub]; }
      if DirectOne(fields, sub, operation, value).Done? {
        var inner := DirectOne(fields, sub, operation, value).value;
        var next := d[attribute := Object(inner)];
        OneName(fields, sub, operation, value);
        SameAtOthers(fields, inner, sub);
        SameBelow(d, next, attribute, sub);
        assert Read(next, [attribute, sub]) == Read(inner, [sub]) by { assert [attribute, sub][1..] == [sub]; }
      }
    }
  }

  lemma NewParent(d: Document, next: Document, attribute: string, sub: string, value: Value)
    requires attribute !in d && next == d[attribute := Object(map[sub := value])]
    ensures SameApart(d, next, [attribute, sub])
    ensures Read(d, [attribute, sub]) == None && Read(next, [attribute, sub]) == Some(value)
  {
    assert [attribute, sub][1..] == [sub];
    SameAtOthers(map[], map[sub := value], sub);
    SameBelow(d, next, attribute, sub);
  }

  /** Without a path: refused as a remove, or for a value that is no object; and otherwise every name of the
      value is added or replaced and every other stays. */
  lemma PathlessLeaves(d: Document, operation: Operation, value: Value)
    ensures Pathless(d, operation, value) == Refused(NoTarget) <==> operation.Remove?
    ensures Pathless(d, operation, value) == Refused(InvalidValue) <==> !operation.Remove? && !value.Object?
    ensures !operation.Remove? && value.Object? ==>
      && Pathless(d, operation, value).Done?
      && var next := Pathless(d, operation, value).value;
         && (forall k | k in value.fields :: Leaves(operation, Read(d, [k]), value.fields[k], Read(next, [k])))
         && forall k | k !in value.fields :: Read(next, [k]) == Read(d, [k])
  {
    if !operation.Remove? && value.Object? {
      forall k | k in value.fields
        ensures Leaves(operation, Read(d, [k]), value.fields[k], Read(Pathless(d, operation, value).value, [k]))
      {
        if operation.Add? {
          OneName(d, k, Add, value.fields[k]);
        }
      }
    }
  }

  // ---------- whole instructions ----------

  /** The full path of a parsed one, extension and all. */
  function FullPath(p: PatchPath): seq<string> {
    (if p.extension == "" then [] else [p.extension]) + PathOf(p.attribute, p.sub)
  }

  /** The object the path starts in: the document, or the object of its extension, which an addition may begin. */
  function Start(d: Document, p: PatchPath): Document {
    if p.extension == "" then d
    else if p.extension in d && d[p.extension].Object? then d[p.extension].fields
    else map[]
  }

  /** Why an instruction without a filter is refused. A password may always be set. */
  function WhyRefused(d: Document, p: PatchPath, operation: Operation): Option<Refusal> {
    if p.extension != "" && p.extension !in d && !operation.Add? then Some(NoTarget)
    else if p.extension != "" && p.extension in d && !d[p.extension].Object? then Some(InvalidPath)
    else if FullPath(p) == ["password"] && !operation.Remove? then None
    else RefusalOf(Start(d, p), p.attribute, p.sub, operation)
  }

  /** The schemas may gain the extension that an addition begins. */
  ghost predicate SchemasGain(fold: string -> string, d: Document, next: Document, schema: string) {
    var before := if "schemas" in d && d["schemas"].Array? then d["schemas"].items else [];
    if exists x: Value | x in before && x.Text? :: fold(x.text) == fold(schema)
    then Read(next, ["schemas"]) == Read(d, ["schemas"])
    else Read(next, ["schemas"]) == Some(Array(before + [Text(schema)]))
  }

  /** An instruction without a filter, on the whole document: refused exactly for that, and otherwise it leaves at
      its path what it should, lists an extension that it begins, and leaves everything apart as it was. */
  lemma InstructionLeaves(c: Comparers, d: Document, i: PatchRun.Instruction)
    requires i.target.At? && i.target.path.selector.Everything? && i.target.path.extension != "schemas"
    ensures var p := i.target.path;
      match WhyRefused(d, p, i.operation)
      case Some(reason) => PatchRun.Applied(c, d, i) == Refused(reason)
      case None =>
        && PatchRun.Applied(c, d, i).Done?
        && var next, path := PatchRun.Applied(c, d, i).value, FullPath(p);
           && (if path == ["password"] && !i.operation.Remove? then Read(next, path) == Some(i.value)
               else Leaves(i.operation, Read(d, path), i.value, Read(next, path)))
           && (if p.extension == "" || p.extension in d then SameApart(d, next, path)
               else
                 && SchemasGain(c.fold, d, next, p.extension)
                 && forall q | Apart(path, q) && q[0] != "schemas" :: Read(next, q) == Read(d, q))
  {
    var p := i.target.path;
    if p.extension == "" {
      OnDocument(c, d, i);
    } else if p.extension in d {
      InExtension(c, d, i);
    } else if i.operation.Add? {
      InNewExtension(c, d, i);
    }
  }

  lemma OnDocument(c: Comparers, d: Document, i: PatchRun.Instruction)
    requires i.target.At? && i.target.path.selector.Everything? && i.target.path.extension == ""
    ensures var p := i.target.path;
      match WhyRefused(d, p, i.operation)
      case Some(reason) => PatchRun.Applied(c, d, i) == Refused(reason)
      case None =>
        && PatchRun.Applied(c, d, i).Done?
        && var next, path := PatchRun.Applied(c, d, i).value, FullPath(p);
           && (if path == ["password"] && !i.operation.Remove? then Read(next, path) == Some(i.value)
               else Leaves(i.operation, Read(d, path), i.value, Read(next, path)))
           && SameApart(d, next, path)
  {
    hide Leaves, Direct, Filtered, RefusalOf;
    var p := i.target.path;
    assert FullPath(p) == PathOf(p.attribute, p.sub);
    DirectLeaves(d, p.attribute, p.sub, i.operation, i.value);
    if p.attribute == "password" && p.sub == "" && !i.operation.Remove? {
      SameAtOthers(d, d["password" := i.value], "password");
    }
  }

  /** A path into an extension, seen from the document. */
  lemma ThroughExtension(d: Document, around: Document, inner: Document, extension: string, path: seq<string>)
    requires path != []
    requires SameApart(if extension in d && d[extension].Object? then d[extension].fields else map[], inner, path)
    requires extension in d ==> d[extension].Object?
    ensures var next := around[extension := Object(inner)];
      && Read(next, [extension] + path) == Read(inner, path)
      && forall q | Apart([extension] + path, q) ::
           if q[0] == extension then Read(next, q) == Read(d, q) else Read(next, q) == Read(around, q)
  {
    var next := around[extension := Object(inner)];
    var full := [extension] + path;
    assert full[1..] == path && full[0] == extension;
    forall q | Apart(full, q)
      ensures q != []
      ensures if q[0] == extension then Read(next, q) == Read(d, q) else Read(next, q) == Read(around, q)
    {
      if q[0] == extension {
        var rest := q[1..];
        assert q == [extension] + rest;
        Deeper(extension, path, rest);
        NothingThere(rest);
      }
    }
  }

  lemma Deeper(a: string, p: seq<string>, q: seq<string>)
    requires p != []
    ensures Apart([a] + p, [a] + q) ==> q != [] && Apart(p, q)
  {
    if p <= q {
      assert [a] + p <= [a] + q;
    }
    if q <= p {
      assert [a] + q <= [a] + p;
    }
  }

  lemma InExtension(c: Comparers, d: Document, i: PatchRun.Instruction)
    requires i.target.At? && i.target.path.selector.Everything?
    requires i.target.path.extension != "" && i.target.path.extension in d
    ensures var p := i.target.path;
      match WhyRefused(d, p, i.operation)
      case Some(reason) => PatchRun.Applied(c, d, i) == Refused(reason)
      case None =>
        && PatchRun.Applied(c, d, i).Done?
        && var next, path := PatchRun.Applied(c, d, i).value, FullPath(p);
           Leaves(i.operation, Read(d, path), i.value, Read(next, path)) && SameApart(d, next, path)
  {
    hide Leaves, Direct, Filtered, RefusalOf, SameApart;
    var p := i.target.path;
    assert FullPath(p) != ["password"] by { assert |FullPath(p)| >= 2; }
    if d[p.extension].Object? {
      var fields := d[p.extension].fields;
      DirectLeaves(fields, p.attribute, p.sub, i.operation, i.value);
      if Direct(fields, p.attribute, p.sub, i.operation, i.value).Done? {
        var inner := Direct(fields, p.attribute, p.sub, i.operation, i.value).value;
        ThroughExtension(d, d, inner, p.extension, PathOf(p.attribute, p.sub));
        ReadInside(d, p.extension, PathOf(p.attribute, p.sub));
        InsideApart(d, d[p.extension := Object(inner)], FullPath(p));
      }
    }
  }

  lemma ReadInside(d: Document, extension: string, path: seq<string>)
    requires path != [] && extension in d && d[extension].Object?
    ensures Read(d, [extension] + path) == Read(d[extension].fields, path)
  {
    assert ([extension] + path)[1..] == path;
  }

  lemma InsideApart(d: Document, next: Document, full: seq<string>)
    requires forall q | Apart(full, q) :: Read(next, q) == Read(d, q)
    ensures SameApart(d, next, full)
  {
  }

  lemma InNewExtension(c: Comparers, d: Document, i: PatchRun.Instruction)
    requires i.target.At? && i.target.path.selector.Everything? && i.operation.Add?
    requires i.target.path.extension != "" && i.target.path.extension !in d && i.target.path.extension != "schemas"
    ensures var p := i.target.path;
      && WhyRefused(d, p, Add) == None && PatchRun.Applied(c, d, i).Done?
      && var next, path := PatchRun.Applied(c, d, i).value, FullPath(p);
         && Leaves(Add, Read(d, path), i.value, Read(next, path))
         && SchemasGain(c.fold, d, next, p.extension)
         && forall q | Apart(path, q) && q[0] != "schemas" :: Read(next, q) == Read(d, q)
  {
    hide Leaves, Direct, Filtered, SameApart;
    var p, path := i.target.path, PathOf(i.target.path.attribute, i.target.path.sub);
    assert FullPath(p) != ["password"] by { assert |FullPath(p)| >= 2; }
    var begun := d[p.extension := Object(map[])];
    var around := PatchRun.EnsureSchema(c.fold, begun, p.extension);
    SchemaIsListed(c.fold, d, begun, p.extension);
    DirectLeaves(map[], p.attribute, p.sub, Add, i.value);
    var inner := Direct(map[], p.attribute, p.sub, Add, i.value).value;
    ThroughExtension(d, around, inner, p.extension, path);
    NothingThere(path);
    assert Read(d, [p.extension] + path) == None;
  }

  lemma SchemaIsListed(fold: string -> string, d: Document, begun: Document, schema: string)
    requires schema !in d && schema != "schemas" && begun == d[schema := Object(map[])]
    ensures var around := PatchRun.EnsureSchema(fold, begun, schema);
      && (forall k | k != "schemas" && k != schema :: (k in around <==> k in d) && (k in d ==> around[k] == d[k]))
      && (forall inner :: SchemasGain(fold, d, around[schema := Object(inner)], schema))
  {
    var entries := PatchRun.Entries(begun);
    if x: Value :| x in entries && x.Text? && fold(x.text) == fold(schema) {
      var j :| 0 <= j < |entries| && entries[j] == x;
    }
  }

  // ---------- operations with a filter ----------

  /** A selected element under add, replace, or a remove below it: without a sub-attribute the fields of the
      value are set, and with one it is added, replaced or removed there. */
  ghost predicate ElementLeaves(item: Document, sub: string, operation: Operation, value: Value, next: Document) {
    if sub == "" then
      && value.Object?
      && forall k :: Read(next, [k]) == if k in value.fields then Some(value.fields[k]) else Read(item, [k])
    else Leaves(operation, Read(item, [sub]), value, Read(next, [sub])) && SameApart(item, next, [sub])
  }

  predicate Impossible(item: Document, sub: string, operation: Operation) {
    sub != "" && !operation.Add? && sub !in item
  }

  /** Why a filtered operation is refused, its elements being there and its filter sound. */
  ghost function WhyElementsRefuse(c: Comparers, filter: Bound, items: seq<Value>, sub: string, operation: Operation,
                                   value: Value): Option<Refusal> {
    if forall x | x in items && x.Object? :: !Holds(c, filter, x.fields) then
      if operation.Remove? then None else Some(NoTarget)
    else if operation.Remove? && sub == "" then None
    else if sub == "" && !value.Object? then Some(InvalidValue)
    else if exists x | x in items && x.Object? && Holds(c, filter, x.fields) :: Impossible(x.fields, sub, operation)
      then Some(NoTarget)
    else None
  }

  ghost function WhyFilteredRefuses(c: Comparers, d: Document, attribute: string, selector: Selector, sub: string,
                                    operation: Operation, value: Value): Option<Refusal>
    requires !selector.Everything?
  {
    if attribute !in d || !d[attribute].Array? then Some(NoTarget)
    else if selector.NotMultiValued? then Some(InvalidPath)
    else if selector.BadFilter? then Some(InvalidFilter)
    else WhyElementsRefuse(c, selector.filter, d[attribute].items, sub, operation, value)
  }

  lemma ElementChanges(item: Document, sub: string, operation: Operation, value: Value)
    requires !(operation.Remove? && sub == "")
    ensures Changed(item, sub, operation, value).Done? ==>
      ElementLeaves(item, sub, operation, value, Changed(item, sub, operation, value).value)
    ensures sub == "" && !value.Object? ==> Changed(item, sub, operation, value) == Refused(InvalidValue)
    ensures Impossible(item, sub, operation) ==> Changed(item, sub, operation, value) == Refused(NoTarget)
    ensures !Impossible(item, sub, operation) && (sub == "" ==> value.Object?) ==>
      Changed(item, sub, operation, value).Done?
  {
    if sub != "" && DirectOne(item, sub, operation, value).Done? {
      OneName(item, sub, operation, value);
      SameAtOthers(item, DirectOne(item, sub, operation, value).value, sub);
    }
  }

  /** A filtered operation below its elements is refused when the first of them to refuse does. */
  lemma {:induction false} AllChange(c: Comparers, filter: Bound, items: seq<Value>, sub: string,
                                     operation: Operation, value: Value)
    requires !(operation.Remove? && sub == "")
    requires exists x | x in items && x.Object? :: Holds(c, filter, x.fields)
    ensures match WhyElementsRefuse(c, filter, items, sub, operation, value)
      case Some(reason) => ChangedAll(c, filter, items, sub, operation, value) == Refused(reason)
      case None => ChangedAll(c, filter, items, sub, operation, value).Done?
  {
    hide Holds, Changed, Impossible;
    var init, last := items[..|items| - 1], items[|items| - 1];
    assert items == init + [last];
    if exists x | x in init && x.Object? :: Holds(c, filter, x.fields) {
      AllChange(c, filter, init, sub, operation, value);
    } else {
      NoneChanges(c, filter, init, sub, operation, value);
    }
    LastChanges(c, filter, init, last, sub, operation, value);
    hide WhyElementsRefuse;
    LastDecides(c, filter, items, sub, operation, value);
  }

  /** What the last element adds to the reasons. */
  lemma LastChanges(c: Comparers, filter: Bound, init: seq<Value>, last: Value, sub: string, operation: Operation,
                    value: Value)
    requires !(operation.Remove? && sub == "")
    requires exists x | x in init + [last] && x.Object? :: Holds(c, filter, x.fields)
    ensures var before := if exists x | x in init && x.Object? :: Holds(c, filter, x.fields)
                          then WhyElementsRefuse(c, filter, init, sub, operation, value) else None;
      WhyElementsRefuse(c, filter, init + [last], sub, operation, value) ==
        if before.Some? then before
        else if !Selected(c, filter, last) then None
        else match Changed(last.fields, sub, operation, value) case Refused(reason) => Some(reason) case Done(_) => None
  {
    hide Holds, Changed, Impossible;
    assert forall x :: x in init + [last] <==> x in init || x == last;
    if last.Object? {
      ElementChanges(last.fields, sub, operation, value);
    }
  }

  lemma LastDecides(c: Comparers, filter: Bound, items: seq<Value>, sub: string, operation: Operation, value: Value)
    requires items != []
    ensures ChangedAll(c, filter, items, sub, operation, value) ==
      match ChangedAll(c, filter, items[..|items| - 1], sub, operation, value)
      case Refused(reason) => Refused(reason)
      case Done(changed) =>
        var last := items[|items| - 1];
        if !Selected(c, filter, last) then Done(changed + [last])
        else match Changed(last.fields, sub, operation, value)
             case Refused(reason) => Refused(reason)
             case Done(item) => Done(changed + [Object(item)])
  {
    hide Holds, Changed;
  }

  lemma {:induction false} NoneChanges(c: Comparers, filter: Bound, items: seq<Value>, sub: string,
                                       operation: Operation, value: Value)
    requires forall x | x in items && x.Object? :: !Holds(c, filter, x.fields)
    ensures ChangedAll(c, filter, items, sub, operation, value) == Done(items)
  {
    hide Holds, Changed;
    if items != [] {
      var init, last := items[..|items| - 1], items[|items| - 1];
      assert items == init + [last] && last in items;
      NoneChanges(c, filter, init, sub, operation, value);
    }
  }

  /** A filtered operation: refused exactly for that; otherwise other attributes stay, elements that do not match
      stay, each match is left as it should be, and a remove without a sub-attribute leaves the others. */
  lemma FilteredLeaves(c: Comparers, d: Document, attribute: string, selector: Selector, sub: string,
                       operation: Operation, value: Value)
    requires !selector.Everything?
    ensures match WhyFilteredRefuses(c, d, attribute, selector, sub, operation, value)
      case Some(reason) => Filtered(c, d, attribute, selector, sub, operation, value) == Refused(reason)
      case None =>
        && Filtered(c, d, attribute, selector, sub, operation, value).Done?
        && var next, items := Filtered(c, d, attribute, selector, sub, operation, value).value, d[attribute].items;
           && SameApart(d, next, [attribute]) && attribute in next && next[attribute].Array?
           && if operation.Remove? && sub == "" then
                forall x :: multiset(next[attribute].items)[x] ==
                  if x.Object? && Holds(c, selector.filter, x.fields) then 0 else multiset(items)[x]
              else
                && |next[attribute].items| == |items|
                && forall k | 0 <= k < |items| ::
                     if items[k].Object? && Holds(c, selector.filter, items[k].fields) then
                       && next[attribute].items[k].Object?
                       && ElementLeaves(items[k].fields, sub, operation, value, next[attribute].items[k].fields)
                     else next[attribute].items[k] == items[k]
  {
    hide Holds, Changed, ChangedAll, WhyElementsRefuse, Unselected, ElementLeaves;
    if WhyFilteredRefuses(c, d, attribute, selector, sub, operation, value).None? {
      FilteredIsDone(c, d, attribute, selector.filter, sub, operation, value);
      var next := Filtered(c, d, attribute, selector, sub, operation, value).value;
      PatchRun.FilteredTouchesOnlyMatches(c, d, attribute, selector, sub, operation, value);
      SameAtOthers(d, next, attribute);
      var items := d[attribute].items;
      if operation.Remove? && sub == "" {
        forall x
          ensures multiset(next[attribute].items)[x] ==
            if x.Object? && Holds(c, selector.filter, x.fields) then 0 else multiset(items)[x]
        {
          PatchRun.UnselectedIsTheRest(c, selector.filter, items, x);
        }
      } else {
        forall k | 0 <= k < |items| && items[k].Object? && Holds(c, selector.filter, items[k].fields)
          ensures next[attribute].items[k].Object?
          ensures ElementLeaves(items[k].fields, sub, operation, value, next[attribute].items[k].fields)
        {
          ElementChanges(items[k].fields, sub, operation, value);
        }
      }
    } else if attribute in d && d[attribute].Array? && selector.Where? {
      FilteredIsDone(c, d, attribute, selector.filter, sub, operation, value);
    }
  }

  lemma FilteredIsDone(c: Comparers, d: Document, attribute: string, filter: Bound, sub: string, operation: Operation,
                       value: Value)
    requires attribute in d && d[attribute].Array?
    ensures match WhyElementsRefuse(c, filter, d[attribute].items, sub, operation, value)
      case Some(reason) => Filtered(c, d, attribute, Where(filter), sub, operation, value) == Refused(reason)
      case None => Filtered(c, d, attribute, Where(filter), sub, operation, value).Done?
  {
    hide Holds, Changed, ChangedAll;
    var items := d[attribute].items;
    assert AnySelected(c, filter, items) <==> exists x | x in items && x.Object? :: Holds(c, filter, x.fields);
    if AnySelected(c, filter, items) && !(operation.Remove? && sub == "") {
      AllChange(c, filter, items, sub, operation, value);
    }
  }

  /** A filtered instruction acts on the object of its extension, if it has one, and leaves all else. */
  lemma FilteredInstructionLeaves(c: Comparers, d: Document, i: PatchRun.Instruction)
    requires i.target.At? && !i.target.path.selector.Everything?
    ensures var p := i.target.path;
      if p.extension != "" && p.extension !in d then PatchRun.Applied(c, d, i) == Refused(NoTarget)
      else if p.extension != "" && !d[p.extension].Object? then PatchRun.Applied(c, d, i) == Refused(InvalidPath)
      else match Filtered(c, Start(d, p), p.attribute, p.selector, p.sub, i.operation, i.value)
        case Refused(reason) => PatchRun.Applied(c, d, i) == Refused(reason)
        case Done(inner) =>
          PatchRun.Applied(c, d, i) == Done(if p.extension == "" then inner else d[p.extension := Object(inner)])
  {
    hide Filtered;
  }
}
