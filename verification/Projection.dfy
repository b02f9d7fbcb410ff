/** Which attributes a response carries: path deletion and path copying, and what they never let through. */
module Projection {
  import opened Values
  import opened Schema

  type Path = seq<string>

  // ---------- the two path operations ----------

  /** Removes the value at a path from every object it leads through; an object left empty goes too. */
  function Delete(d: Document, path: Path): Document
    decreases |path|
  {
    if path == [] then d
    else if |path| == 1 then d - {path[0]}
    else if path[0] !in d then d
    else
      match d[path[0]]
      case Object(fields) =>
        var left := Delete(fields, path[1..]);
        if left == map[] then d - {path[0]} else d[path[0] := Object(left)]
      case Array(items) =>
        d[path[0] := Array(seq(|items|, i requires 0 <= i < |items| =>
          if items[i].Object? then Object(Delete(items[i].fields, path[1..])) else items[i]))]
      case _ => d
  }

  /** Copies the value at a path, creating the objects on the way. Array elements pair up by position. */
  function Copy(target: Document, source: Document, path: Path): Document
    decreases |path|
  {
    if path == [] || path[0] !in source then target
    else if |path| == 1 then target[path[0] := source[path[0]]]
    else
      match source[path[0]]
      case Object(fields) =>
        var child := if path[0] in target && target[path[0]].Object? then target[path[0]].fields else map[];
        target[path[0] := Object(Copy(child, fields, path[1..]))]
      case Array(items) =>
        var children := Partners(target, path[0], |items|);
        target[path[0] := Array(seq(|items|, i requires 0 <= i < |items| =>
          if items[i].Object? && children[i].Object?
          then Object(Copy(children[i].fields, items[i].fields, path[1..])) else children[i]))]
      case _ => target
  }

  /** The target's array of the wanted length, or one of empty objects. */
  function Partners(target: Document, name: string, n: nat): (r: seq<Value>)
    ensures |r| == n
  {
    if name in target && target[name].Array? && |target[name].items| == n then target[name].items
    else seq(n, i => Object(map[]))
  }

  // ---------- the projection ----------

  function Paths(attributes: seq<Attribute>, prefix: Path, returned: string): seq<Path> {
    if attributes == [] then []
    else
      var a := attributes[0];
      (if a.returned == returned then [prefix + [a.name]] else [])
      + (if a.kind == "complex" then Paths(a.subAttributes, prefix + [a.name], returned) else [])
      + Paths(attributes[1..], prefix, returned)
  }

  /** Some requested path leads to this one, up to case. */
  predicate PathRequested(fold: string -> string, path: Path, requested: seq<Path>) {
    exists k | 0 <= k < |requested| :: Covers(fold, requested[k], path)
  }

  predicate Covers(fold: string -> string, short: Path, long: Path) {
    |short| <= |long| && forall i | 0 <= i < |short| :: fold(short[i]) == fold(long[i])
  }

  datatype Returnability = Returnability(always: seq<Path>, never: seq<Path>, requested: seq<Path>)

  function ReturnabilityPaths(attributes: seq<Attribute>, extensions: seq<(string, seq<Attribute>)>): Returnability {
    Returnability(
      Paths(attributes, [], "always") + ExtensionPaths(extensions, "always"),
      Paths(attributes, [], "never") + ExtensionPaths(extensions, "never") + [["password"]],
      Paths(attributes, [], "request") + ExtensionPaths(extensions, "request"))
  }

  function ExtensionPaths(extensions: seq<(string, seq<Attribute>)>, returned: string): seq<Path> {
    if extensions == [] then []
      else Paths(extensions[0].1, [extensions[0].0], returned) + ExtensionPaths(extensions[1..], returned)
  }

  function DeleteAll(d: Document, paths: seq<Path>): Document {
    if paths == [] then d else DeleteAll(Delete(d, paths[0]), paths[1..])
  }

  function CopyAll(target: Document, source: Document, paths: seq<Path>): Document
    decreases |paths|
  {
    if paths == [] then target else CopyAll(Copy(target, source, paths[0]), source, paths[1..])
  }

  function Unrequested(fold: string -> string, requested: seq<Path>, wanted: seq<Path>): seq<Path> {
    if requested == [] then []
    else
      (if PathRequested(fold, requested[0], wanted) then [] else [requested[0]])
      + Unrequested(fold, requested[1..], wanted)
  }

  /** Exclusions do not reach the identity of the resource, nor what lies on or below an attribute
      that is always returned. */
  predicate Exempt(fold: string -> string, p: Path, always: seq<Path>) {
    (|p| == 1 && (fold(p[0]) == fold("schemas") || fold(p[0]) == fold("id"))) || PathRequested(fold, p, always)
  }

  /** The exclusions that take effect. */
  function Excludable(fold: string -> string, excluded: seq<Path>, always: seq<Path>): seq<Path> {
    if excluded == [] then []
    else (if Exempt(fold, excluded[0], always) then [] else [excluded[0]]) + Excludable(fold, excluded[1..], always)
  }

  function Visible(fold: string -> string, d: Document, wanted: seq<Path>, r: Returnability): Document {
    DeleteAll(DeleteAll(d, r.never), Unrequested(fold, r.requested, wanted))
  }

  function Project(fold: string -> string, d: Document, wanted: seq<Path>, excluded: seq<Path>,
                   r: Returnability): Document {
    var source := Visible(fold, d, wanted, r);
    if wanted != [] then CopyAll(map[], source, [["schemas"], ["id"]] + r.always + wanted)
    else CopyAll(DeleteAll(source, Excludable(fold, excluded, r.always)), source, r.always)
  }

  // ---------- nothing at a path ----------

  /** Neither path leads through the other. */
  predicate Unrelated(p: Path, q: Path) { !(p <= q) && !(q <= p) }

  ghost predicate Absent(d: Document, path: Path)
    decreases |path|
  {
    path != [] && path[0] in d ==>
      |path| > 1 &&
      match d[path[0]]
      case Object(fields) => Absent(fields, path[1..])
      case Array(items) => forall i | 0 <= i < |items| :: items[i].Object? ==> Absent(items[i].fields, path[1..])
      case _ => true
  }

  lemma {:induction false} DeleteMakesAbsent(d: Document, path: Path)
    ensures Absent(Delete(d, path), path)
    decreases |path|
  {
    if |path| > 1 && path[0] in d {
      match d[path[0]]
      case Object(fields) => DeleteMakesAbsent(fields, path[1..]);
      case Array(items) =>
        forall i | 0 <= i < |items| && items[i].Object?
          ensures Absent(Delete(items[i].fields, path[1..]), path[1..])
        {
          DeleteMakesAbsent(items[i].fields, path[1..]);
        }
      case _ =>
    }
  }

  lemma {:induction false} DeleteKeepsAbsent(d: Document, path: Path, gone: Path)
    requires Absent(d, gone)
    ensures Absent(Delete(d, path), gone)
    decreases |path|
  {
    if |path| > 1 && |gone| > 1 && path[0] == gone[0] && path[0] in d {
      match d[path[0]]
      case Object(fields) => DeleteKeepsAbsent(fields, path[1..], gone[1..]);
      case Array(items) =>
        forall i | 0 <= i < |items| && items[i].Object?
          ensures Absent(Delete(items[i].fields, path[1..]), gone[1..])
        {
          DeleteKeepsAbsent(items[i].fields, path[1..], gone[1..]);
        }
      case _ =>
    }
  }

  /** Copying from a source that lacks a path, or copying another path, does not bring it back. */
  lemma {:induction false} CopyKeepsAbsent(target: Document, source: Document, path: Path, gone: Path)
    requires Absent(target, gone) && (Absent(source, gone) || Unrelated(path, gone))
    ensures Absent(Copy(target, source, path), gone)
    decreases |path|
  {
    if path != [] && gone != [] && path[0] == gone[0] && path[0] in source && |path| > 1 && |gone| > 1 {
      assert path == [path[0]] + path[1..] && gone == [gone[0]] + gone[1..];
      match source[path[0]]
      case Object(fields) =>
        var child := if path[0] in target && target[path[0]].Object? then target[path[0]].fields else map[];
        CopyKeepsAbsent(child, fields, path[1..], gone[1..]);
      case Array(items) =>
        var children := Partners(target, path[0], |items|);
        forall i | 0 <= i < |items| && items[i].Object? && children[i].Object?
          ensures Absent(Copy(children[i].fields, items[i].fields, path[1..]), gone[1..])
        {
          CopyKeepsAbsent(children[i].fields, items[i].fields, path[1..], gone[1..]);
        }
      case _ =>
    }
  }

  lemma {:induction false} DeleteAllMakesAbsent(d: Document, paths: seq<Path>, gone: Path)
    requires gone in paths || Absent(d, gone)
    ensures Absent(DeleteAll(d, paths), gone)
    decreases |paths|
  {
    if paths != [] {
      if gone == paths[0] {
        DeleteMakesAbsent(d, gone);
      } else if Absent(d, gone) {
        DeleteKeepsAbsent(d, paths[0], gone);
      }
      DeleteAllMakesAbsent(Delete(d, paths[0]), paths[1..], gone);
    }
  }

  lemma {:induction false} CopyAllKeepsAbsent(target: Document, source: Document, paths: seq<Path>, gone: Path)
    requires Absent(target, gone)
    requires Absent(source, gone) || forall p | p in paths :: Unrelated(p, gone)
    ensures Absent(CopyAll(target, source, paths), gone)
    decreases |paths|
  {
    if paths != [] {
      assert paths[0] in paths && forall p | p in paths[1..] :: p in paths;
      CopyKeepsAbsent(target, source, paths[0], gone);
      CopyAllKeepsAbsent(Copy(target, source, paths[0]), source, paths[1..], gone);
    }
  }

  lemma {:induction false} UnrequestedExactly(fold: string -> string, requested: seq<Path>, wanted: seq<Path>, p: Path)
    ensures p in Unrequested(fold, requested, wanted) <==> p in requested && !PathRequested(fold, p, wanted)
  {
    if requested != [] {
      UnrequestedExactly(fold, requested[1..], wanted, p);
    }
  }

  lemma {:induction false} ExcludableExactly(fold: string -> string, excluded: seq<Path>, always: seq<Path>, p: Path)
    ensures p in Excludable(fold, excluded, always) <==> p in excluded && !Exempt(fold, p, always)
  {
    if excluded != [] {
      ExcludableExactly(fold, excluded[1..], always, p);
    }
  }

  lemma HiddenStaysHidden(fold: string -> string, d: Document, wanted: seq<Path>, excluded: seq<Path>, r: Returnability,
                          p: Path)
    requires Absent(Visible(fold, d, wanted, r), p)
    ensures Absent(Project(fold, d, wanted, excluded, r), p)
  {
    hide Absent, Excludable, Visible;
    var source := Visible(fold, d, wanted, r);
    if wanted != [] {
      EmptyIsAbsent(p);
      CopyAllKeepsAbsent(map[], source, [["schemas"], ["id"]] + r.always + wanted, p);
    } else {
      var kept := Excludable(fold, excluded, r.always);
      DeleteAllMakesAbsent(source, kept, p);
      CopyAllKeepsAbsent(DeleteAll(source, kept), source, r.always, p);
    }
  }

  lemma EmptyIsAbsent(p: Path)
    ensures Absent(map[], p)
  {
  }

  /** Whatever is asked for, an attribute that is never returned is not in the response, and neither
      is one returned on request that no included path leads to. */
  lemma HiddenAttributesAreNotReturned(fold: string -> string, d: Document, wanted: seq<Path>, excluded: seq<Path>,
                                       r: Returnability, p: Path)
    requires p in r.never || (p in r.requested && !PathRequested(fold, p, wanted))
    ensures Absent(Project(fold, d, wanted, excluded, r), p)
  {
    hide Absent, Project, PathRequested;
    var rest := DeleteAll(d, r.never);
    UnrequestedExactly(fold, r.requested, wanted, p);
    if p in r.never {
      DeleteAllMakesAbsent(d, r.never, p);
    }
    DeleteAllMakesAbsent(rest, Unrequested(fold, r.requested, wanted), p);
    HiddenStaysHidden(fold, d, wanted, excluded, r, p);
  }

  /** The password is one of them, whatever the schema says. */
  lemma PasswordIsNeverReturned(fold: string -> string, d: Document, wanted: seq<Path>, excluded: seq<Path>,
                                attributes: seq<Attribute>, extensions: seq<(string, seq<Attribute>)>)
    ensures "password" !in Project(fold, d, wanted, excluded, ReturnabilityPaths(attributes, extensions))
  {
    var r := ReturnabilityPaths(attributes, extensions);
    assert r.never[|r.never| - 1] == ["password"];
    HiddenAttributesAreNotReturned(fold, d, wanted, excluded, r, ["password"]);
  }

  lemma PrefixCovers(fold: string -> string, short: Path, long: Path)
    ensures short <= long ==> Covers(fold, short, long)
  {
  }

  /** An excluded path is gone, unless it names the identity of the resource or an attribute that
      is always returned lies on it or below it. */
  lemma ExcludedIsGone(fold: string -> string, d: Document, excluded: seq<Path>, r: Returnability, p: Path)
    requires p in excluded && !Exempt(fold, p, r.always)
    requires forall q | q in r.always :: !(p <= q)
    ensures Absent(Project(fold, d, [], excluded, r), p)
  {
    hide Absent, Visible;
    var source := Visible(fold, d, [], r);
    ExcludableExactly(fold, excluded, r.always, p);
    DeleteAllMakesAbsent(source, Excludable(fold, excluded, r.always), p);
    forall q | q in r.always
      ensures !(q <= p)
    {
      var k :| 0 <= k < |r.always| && r.always[k] == q;
      assert !Covers(fold, r.always[k], p);
      PrefixCovers(fold, q, p);
    }
    CopyAllKeepsAbsent(DeleteAll(source, Excludable(fold, excluded, r.always)), source, r.always, p);
  }

  // ---------- everything at a path ----------

  /** The target carries all that the source has at a path. */
  ghost predicate Carries(target: Document, source: Document, path: Path)
    decreases |path|
  {
    path != [] && path[0] in source ==>
      if |path| == 1 then path[0] in target && target[path[0]] == source[path[0]]
      else
        match source[path[0]]
        case Object(fields) =>
          path[0] in target && target[path[0]].Object? && Carries(target[path[0]].fields, fields, path[1..])
        case Array(items) =>
          && path[0] in target && target[path[0]].Array? && |target[path[0]].items| == |items|
          && forall i | 0 <= i < |items| :: items[i].Object? ==>
               target[path[0]].items[i].Object? && Carries(target[path[0]].items[i].fields, items[i].fields, path[1..])
        case _ => true
  }

  /** The target holds nothing but parts of the source, elements at their own positions. */
  ghost predicate PartOf(target: Document, source: Document)
    decreases target
  {
    forall k | k in target :: k in source && ValuePartOf(target[k], source[k])
  }

  ghost predicate ValuePartOf(v: Value, w: Value)
    decreases v
  {
    || v == w
    || (v.Object? && w.Object? && forall k | k in v.fields :: k in w.fields && ValuePartOf(v.fields[k], w.fields[k]))
    || (v.Array? && w.Array? && |v.items| == |w.items| && forall i | 0 <= i < |v.items| ::
          if w.items[i].Object? then v.items[i].Object? && ValuePartOf(v.items[i], w.items[i])
          else v.items[i] == Object(map[]) || v.items[i] == w.items[i])
  }

  lemma ObjectPart(target: Document, source: Document)
    ensures PartOf(target, source) <==> ValuePartOf(Object(target), Object(source))
  {
    if target == source {
      assert forall k | k in target :: ValuePartOf(target[k], source[k]);
    }
  }

  lemma {:induction false} CopyIsPart(target: Document, source: Document, path: Path)
    requires PartOf(target, source)
    ensures PartOf(Copy(target, source, path), source)
    ensures Carries(Copy(target, source, path), source, path)
    decreases |path|
  {
    if |path| > 1 && path[0] in source {
      var name, rest := path[0], path[1..];
      match source[name]
      case Object(fields) =>
        var child := if name in target && target[name].Object? then target[name].fields else map[];
        ObjectPart(child, fields);
        CopyIsPart(child, fields, rest);
        ObjectPart(Copy(child, fields, rest), fields);
      case Array(items) =>
        var children := Partners(target, name, |items|);
        forall i | 0 <= i < |items| && items[i].Object?
          ensures children[i].Object? && PartOf(Copy(children[i].fields, items[i].fields, rest), items[i].fields)
          ensures Carries(Copy(children[i].fields, items[i].fields, rest), items[i].fields, rest)
          ensures ValuePartOf(Object(Copy(children[i].fields, items[i].fields, rest)), items[i])
        {
          PartnersMatch(target, source, name, i);
          ObjectPart(children[i].fields, items[i].fields);
          CopyIsPart(children[i].fields, items[i].fields, rest);
          ObjectPart(Copy(children[i].fields, items[i].fields, rest), items[i].fields);
        }
        forall i | 0 <= i < |items| && !items[i].Object?
          ensures children[i] == Object(map[]) || children[i] == items[i]
        {
          PartnersMatch(target, source, name, i);
        }
      case _ =>
    }
  }

  lemma PartnersMatch(target: Document, source: Document, name: string, i: nat)
    requires PartOf(target, source) && name in source && source[name].Array? && i < |source[name].items|
    ensures var items := source[name].items;
            var child := Partners(target, name, |items|)[i];
      if items[i].Object? then child.Object? && ValuePartOf(child, items[i])
        else child == Object(map[]) || child == items[i]
  {
  }

  lemma {:induction false} CopyOntoItself(d: Document, path: Path)
    ensures Copy(d, d, path) == d
    decreases |path|
  {
    if |path| > 1 && path[0] in d {
      match d[path[0]]
      case Object(fields) => CopyOntoItself(fields, path[1..]);
      case Array(items) =>
        forall i | 0 <= i < |items| && items[i].Object?
          ensures Copy(items[i].fields, items[i].fields, path[1..]) == items[i].fields
        {
          CopyOntoItself(items[i].fields, path[1..]);
        }
        assert Copy(d, d, path)[path[0]].items == items;
      case _ =>
    }
  }

  lemma {:induction false} CarriesItself(d: Document, path: Path)
    ensures Carries(d, d, path)
    decreases |path|
  {
    if |path| > 1 && path[0] in d {
      match d[path[0]]
      case Object(fields) => CarriesItself(fields, path[1..]);
      case Array(items) =>
        forall i | 0 <= i < |items| && items[i].Object?
          ensures Carries(items[i].fields, items[i].fields, path[1..])
        {
          CarriesItself(items[i].fields, path[1..]);
        }
      case _ =>
    }
  }

  /** Copying another path does not disturb what is already there. */
  lemma {:induction false} CopyKeepsCarried(target: Document, source: Document, path: Path, kept: Path)
    requires Carries(target, source, kept)
    ensures Carries(Copy(target, source, path), source, kept)
    decreases |path|
  {
    if path != [] && kept != [] && path[0] == kept[0] && path[0] in source {
      var name := path[0];
      if |path| == 1 {
        assert Copy(target, source, path)[name] == source[name];
        CarriesItself(source, kept);
      } else if |kept| == 1 {
        CopyOntoItself(source, path);
        assert Copy(target, source, path)[name] == Copy(source, source, path)[name];
      } else {
        match source[name]
        case Object(fields) => CopyKeepsCarried(target[name].fields, fields, path[1..], kept[1..]);
        case Array(items) =>
          var children := target[name].items;
          forall i | 0 <= i < |items| && items[i].Object?
            ensures Carries(Copy(children[i].fields, items[i].fields, path[1..]), items[i].fields, kept[1..])
          {
            CopyKeepsCarried(children[i].fields, items[i].fields, path[1..], kept[1..]);
          }
        case _ =>
      }
    }
  }

  lemma {:induction false} CopyAllCarries(target: Document, source: Document, paths: seq<Path>, p: Path)
    requires PartOf(target, source) && (p in paths || Carries(target, source, p))
    ensures PartOf(CopyAll(target, source, paths), source)
    ensures Carries(CopyAll(target, source, paths), source, p)
    decreases |paths|
  {
    hide PartOf, Carries, Copy;
    if paths != [] {
      CopyIsPart(target, source, paths[0]);
      if p != paths[0] && Carries(target, source, p) {
        CopyKeepsCarried(target, source, paths[0], p);
      }
      CopyAllCarries(Copy(target, source, paths[0]), source, paths[1..], p);
    }
  }

  /** A response with included attributes carries, for each of them and for the identity of the
      resource, all that is visible there, and holds nothing that is not visible. */
  lemma WantedAttributesAreReturned(fold: string -> string, d: Document, wanted: seq<Path>, excluded: seq<Path>,
                                    r: Returnability, p: Path)
    requires wanted != [] && (p in wanted || p in r.always || p == ["schemas"] || p == ["id"])
    ensures Carries(Project(fold, d, wanted, excluded, r), Visible(fold, d, wanted, r), p)
    ensures PartOf(Project(fold, d, wanted, excluded, r), Visible(fold, d, wanted, r))
  {
    hide Carries, Visible;
    var paths := [["schemas"], ["id"]] + r.always + wanted;
    assert [["schemas"], ["id"]][0] == ["schemas"] && [["schemas"], ["id"]][1] == ["id"];
    assert p in [["schemas"], ["id"]] || p in r.always || p in wanted;
    CopyAllCarries(map[], Visible(fold, d, wanted, r), paths, p);
  }

  // ---------- deletion touches nothing else ----------

  /** Nothing on the path but objects that lead nowhere. */
  ghost predicate Hollow(d: Document, path: Path)
    decreases |path|
  {
    path != [] && path[0] in d ==> |path| > 1 && d[path[0]].Object? && Hollow(d[path[0]].fields, path[1..])
  }

  /** What was at a path is still there; at most objects that led nowhere are gone. */
  ghost predicate Keeps(left: Document, d: Document, path: Path)
    decreases |path|
  {
    path != [] ==> (path[0] in left ==> path[0] in d) && (path[0] in d ==>
      if path[0] !in left then |path| > 1 && d[path[0]].Object? && Hollow(d[path[0]].fields, path[1..])
      else if |path| == 1 then left[path[0]] == d[path[0]]
      else
        match d[path[0]]
        case Object(fields) => left[path[0]].Object? && Keeps(left[path[0]].fields, fields, path[1..])
        case Array(items) =>
          && left[path[0]].Array? && |left[path[0]].items| == |items|
          && forall i | 0 <= i < |items| ::
               if items[i].Object? then
                 left[path[0]].items[i].Object? && Keeps(left[path[0]].items[i].fields, items[i].fields, path[1..])
               else left[path[0]].items[i] == items[i]
        case v => left[path[0]] == v)
  }

  lemma {:induction false} KeepsItself(d: Document, path: Path)
    ensures Keeps(d, d, path)
    decreases |path|
  {
    if |path| > 1 && path[0] in d {
      match d[path[0]]
      case Object(fields) => KeepsItself(fields, path[1..]);
      case Array(items) =>
        forall i | 0 <= i < |items| && items[i].Object?
          ensures Keeps(items[i].fields, items[i].fields, path[1..])
        {
          KeepsItself(items[i].fields, path[1..]);
        }
      case _ =>
    }
  }

  lemma {:induction false} KeepsHollow(left: Document, d: Document, path: Path)
    requires Keeps(left, d, path) && Hollow(left, path)
    ensures Hollow(d, path)
    decreases |path|
  {
    if path != [] && path[0] in d && path[0] in left {
      KeepsHollow(left[path[0]].fields, d[path[0]].fields, path[1..]);
    }
  }

  lemma {:induction false} KeepsChains(a: Document, b: Document, c: Document, path: Path)
    requires Keeps(a, b, path) && Keeps(b, c, path)
    ensures Keeps(a, c, path)
    decreases |path|
  {
    if |path| > 1 && path[0] in c && path[0] in b {
      if path[0] !in a {
        if c[path[0]].Object? {
          KeepsHollow(b[path[0]].fields, c[path[0]].fields, path[1..]);
        }
      } else {
        match c[path[0]]
        case Object(fields) => KeepsChains(a[path[0]].fields, b[path[0]].fields, fields, path[1..]);
        case Array(items) =>
          forall i | 0 <= i < |items| && items[i].Object?
            ensures Keeps(a[path[0]].items[i].fields, items[i].fields, path[1..])
          {
            KeepsChains(a[path[0]].items[i].fields, b[path[0]].items[i].fields, items[i].fields, path[1..]);
          }
        case _ =>
      }
    }
  }

  lemma {:induction false} DeleteKeepsElsewhere(d: Document, path: Path, q: Path)
    requires Unrelated(path, q)
    ensures Keeps(Delete(d, path), d, q)
    decreases |path|
  {
    if path[0] != q[0] || path[0] !in d {
      KeepsItself(d, q);
      KeepsAtHead(Delete(d, path), d, q);
    } else {
      assert path == [path[0]] + path[1..] && q == [q[0]] + q[1..];
      match d[path[0]]
      case Object(fields) =>
        DeleteKeepsElsewhere(fields, path[1..], q[1..]);
        if Delete(fields, path[1..]) == map[] {
          KeepsHollow(map[], fields, q[1..]);
        }
      case Array(items) =>
        forall i | 0 <= i < |items| && items[i].Object?
          ensures Keeps(Delete(items[i].fields, path[1..]), items[i].fields, q[1..])
        {
          DeleteKeepsElsewhere(items[i].fields, path[1..], q[1..]);
        }
      case _ =>
    }
  }

  lemma KeepsAtHead(left: Document, d: Document, q: Path)
    requires Keeps(d, d, q) && q != [] && (q[0] in left <==> q[0] in d) && (q[0] in d ==> left[q[0]] == d[q[0]])
    ensures Keeps(left, d, q)
  {
  }

  /** Deleting paths leaves every other path as it was. */
  lemma {:induction false} DeleteAllKeepsElsewhere(d: Document, paths: seq<Path>, q: Path)
    requires forall p | p in paths :: Unrelated(p, q)
    ensures Keeps(DeleteAll(d, paths), d, q)
    decreases |paths|
  {
    hide Keeps, Delete;
    if paths == [] {
      KeepsItself(d, q);
    } else {
      assert paths[0] in paths && forall p | p in paths[1..] :: p in paths;
      DeleteKeepsElsewhere(d, paths[0], q);
      DeleteAllKeepsElsewhere(Delete(d, paths[0]), paths[1..], q);
      KeepsChains(DeleteAll(d, paths), Delete(d, paths[0]), d, q);
    }
  }

  lemma HollowIsKept(d: Document, path: Path)
    requires Hollow(d, path)
    ensures Keeps(map[], d, path)
  {
  }

  /** Copying back from the original keeps what was kept. */
  lemma {:induction false} CopyKeepsKept(left: Document, source: Document, path: Path, q: Path)
    requires Keeps(left, source, q)
    ensures Keeps(Copy(left, source, path), source, q)
    decreases |path|
  {
    if path != [] && q != [] && path[0] == q[0] && path[0] in source {
      var name := path[0];
      if |path| == 1 {
        KeepsItself(source, q);
        KeepsAtHead(Copy(left, source, path), source, q);
      } else if |q| == 1 {
        CopyOntoItself(source, path);
        assert Copy(left, source, path)[name] == Copy(source, source, path)[name];
      } else {
        match source[name]
        case Object(fields) =>
          var child := if name in left && left[name].Object? then left[name].fields else map[];
          if name !in left {
            HollowIsKept(fields, q[1..]);
          }
          CopyKeepsKept(child, fields, path[1..], q[1..]);
        case Array(items) =>
          var children := left[name].items;
          forall i | 0 <= i < |items| && items[i].Object?
            ensures Keeps(Copy(children[i].fields, items[i].fields, path[1..]), items[i].fields, q[1..])
          {
            CopyKeepsKept(children[i].fields, items[i].fields, path[1..], q[1..]);
          }
        case _ =>
      }
    }
  }

  lemma {:induction false} CopyAllKeepsKept(left: Document, source: Document, paths: seq<Path>, q: Path)
    requires Keeps(left, source, q)
    ensures Keeps(CopyAll(left, source, paths), source, q)
    decreases |paths|
  {
    hide Keeps, Copy;
    if paths != [] {
      CopyKeepsKept(left, source, paths[0], q);
      CopyAllKeepsKept(Copy(left, source, paths[0]), source, paths[1..], q);
    }
  }

  /** A response without included attributes holds every path of the resource as it is, unless the path
      meets one that is hidden by its schema or an exclusion that takes effect. */
  lemma OtherAttributesAreReturned(fold: string -> string, d: Document, excluded: seq<Path>, r: Returnability, q: Path)
    requires forall p | p in r.never || p in r.requested || (p in excluded && !Exempt(fold, p, r.always)) ::
      Unrelated(p, q)
    ensures Keeps(Project(fold, d, [], excluded, r), d, q)
  {
    hide Keeps, Delete, Copy, PathRequested;
    var shown := DeleteAll(d, r.never);
    var source := Visible(fold, d, [], r);
    var taken := Excludable(fold, excluded, r.always);
    var left := DeleteAll(source, taken);
    forall p | p in Unrequested(fold, r.requested, [])
      ensures Unrelated(p, q)
    {
      UnrequestedExactly(fold, r.requested, [], p);
    }
    forall p | p in taken
      ensures Unrelated(p, q)
    {
      ExcludableExactly(fold, excluded, r.always, p);
    }
    DeleteAllKeepsElsewhere(d, r.never, q);
    DeleteAllKeepsElsewhere(shown, Unrequested(fold, r.requested, []), q);
    DeleteAllKeepsElsewhere(source, taken, q);
    hide DeleteAll, Excludable, Unrequested;
    CopyAllKeepsKept(left, source, r.always, q);
    KeepsChains(source, shown, d, q);
    KeepsChains(CopyAll(left, source, r.always), source, d, q);
  }

  // ---------- always returned ----------

  lemma {:induction false} DeleteIsPart(target: Document, source: Document, path: Path)
    requires PartOf(target, source)
    ensures PartOf(Delete(target, path), source)
    decreases |path|
  {
    if |path| > 1 && path[0] in target {
      var name, rest := path[0], path[1..];
      if target == source {
        PartOfItself(source);
      }
      match target[name]
      case Object(fields) =>
        ObjectPart(fields, source[name].fields);
        DeleteIsPart(fields, source[name].fields, rest);
        ObjectPart(Delete(fields, rest), source[name].fields);
      case Array(items) =>
        forall i | 0 <= i < |items| && items[i].Object?
          ensures ValuePartOf(Object(Delete(items[i].fields, rest)), source[name].items[i])
               || (items[i] == Object(map[]) && Delete(items[i].fields, rest) == map[])
        {
          if source[name].items[i].Object? {
            ObjectPart(items[i].fields, source[name].items[i].fields);
            DeleteIsPart(items[i].fields, source[name].items[i].fields, rest);
            ObjectPart(Delete(items[i].fields, rest), source[name].items[i].fields);
          }
        }
      case _ =>
    }
  }

  lemma PartOfItself(d: Document)
    ensures PartOf(d, d)
  {
  }

  lemma {:induction false} DeleteAllIsPart(target: Document, source: Document, paths: seq<Path>)
    requires PartOf(target, source)
    ensures PartOf(DeleteAll(target, paths), source)
    decreases |paths|
  {
    hide PartOf, Delete;
    if paths != [] {
      DeleteIsPart(target, source, paths[0]);
      DeleteAllIsPart(Delete(target, paths[0]), source, paths[1..]);
    }
  }

  /** What is always returned is in every response with all that is visible there, even when an exclusion
      names it or an object it lies in. */
  lemma AlwaysAttributesAreReturned(fold: string -> string, d: Document, wanted: seq<Path>, excluded: seq<Path>,
                                    r: Returnability, p: Path)
    requires p in r.always
    ensures Carries(Project(fold, d, wanted, excluded, r), Visible(fold, d, wanted, r), p)
    ensures PartOf(Project(fold, d, wanted, excluded, r), Visible(fold, d, wanted, r))
  {
    hide Carries, Visible, PartOf, Excludable;
    if wanted != [] {
      WantedAttributesAreReturned(fold, d, wanted, excluded, r, p);
    } else {
      var source := Visible(fold, d, wanted, r);
      PartOfItself(source);
      DeleteAllIsPart(source, source, Excludable(fold, excluded, r.always));
      CopyAllCarries(DeleteAll(source, Excludable(fold, excluded, r.always)), source, r.always, p);
    }
  }
}
