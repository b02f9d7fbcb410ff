/** What the schema makes of a response: which paths its attributes hide, always return or return on request,
    and what clients may ask for in any case of letters. */
module ProjectionLaws {
  import opened Values
  import opened Schema
  import opened Projection

  // ---------- the attribute at a path ----------

  /** The path leads from one of these attributes, through complex ones, to this attribute. */
  ghost predicate Leads(attributes: seq<Attribute>, path: Path, target: Attribute)
    decreases |path|
  {
    && path != []
    && exists a | a in attributes :: a.name == path[0] &&
         if |path| == 1 then a == target else a.kind == "complex" && Leads(a.subAttributes, path[1..], target)
  }

  /** Some attribute at the path is returned so. */
  ghost predicate IsReturned(attributes: seq<Attribute>, path: Path, returned: string) {
    exists target :: Leads(attributes, path, target) && target.returned == returned
  }

  lemma {:induction false} PathsExactly(attributes: seq<Attribute>, prefix: Path, returned: string, p: Path)
    ensures p in Paths(attributes, prefix, returned) <==>
      prefix <= p && IsReturned(attributes, p[|prefix|..], returned)
    decreases attributes
  {
    if attributes == [] {
    } else {
      var a, rest := attributes[0], attributes[1..];
      PathsExactly(rest, prefix, returned, p);
      PathsExactly(a.subAttributes, prefix + [a.name], returned, p);
      if prefix <= p {
        FirstOrRest(attributes, p[|prefix|..], returned);
        OnePath(a, prefix, returned, p);
      }
      hide Leads, IsReturned;
      assert prefix + [a.name] <= p ==> prefix <= p;
    }
  }

  /** A path begins at the first attribute or at one of the others. */
  lemma FirstOrRest(attributes: seq<Attribute>, path: Path, returned: string)
    requires attributes != []
    ensures IsReturned(attributes, path, returned) <==>
      IsReturned([attributes[0]], path, returned) || IsReturned(attributes[1..], path, returned)
  {
    var a, rest := attributes[0], attributes[1..];
    forall target
      ensures Leads(attributes, path, target) <==> Leads([a], path, target) || Leads(rest, path, target)
    {
      assert forall b :: b in attributes <==> b == a || b in rest;
      assert forall b :: b in [a] <==> b == a;
    }
    hide Leads;
  }

  lemma OnePath(a: Attribute, prefix: Path, returned: string, p: Path)
    requires prefix <= p
    ensures IsReturned([a], p[|prefix|..], returned) <==>
      || (p == prefix + [a.name] && a.returned == returned)
      || (a.kind == "complex" && prefix + [a.name] <= p && IsReturned(a.subAttributes, p[|prefix| + 1..], returned))
  {
    var path := p[|prefix|..];
    assert p == prefix + path;
    assert forall b :: b in [a] <==> b == a;
    if path != [] {
      assert path[1..] == p[|prefix| + 1..];
      assert path[0] == a.name ==> prefix + [a.name] <= p;
      assert prefix + [a.name] <= p ==> path[0] == a.name;
      if |path| == 1 {
        assert path == [path[0]];
        if a.returned == returned && path[0] == a.name {
          assert Leads([a], path, a);
        }
      } else {
        forall target
          ensures Leads([a], path, target) <==>
            path[0] == a.name && a.kind == "complex" && Leads(a.subAttributes, path[1..], target)
        {
        }
      }
    }
  }

  lemma {:induction false} ExtensionPathsExactly(extensions: seq<(string, seq<Attribute>)>, returned: string, p: Path)
    ensures p in ExtensionPaths(extensions, returned) <==>
      exists e | e in extensions :: [e.0] <= p && IsReturned(e.1, p[1..], returned)
  {
    hide IsReturned, Paths;
    if extensions != [] {
      ExtensionPathsExactly(extensions[1..], returned, p);
      PathsExactly(extensions[0].1, [extensions[0].0], returned, p);
      assert forall e :: e in extensions <==> e == extensions[0] || e in extensions[1..];
    }
  }

  /** An attribute of the resource or of an extension stands at the path and is returned so. */
  ghost predicate SchemaReturns(attributes: seq<Attribute>, extensions: seq<(string, seq<Attribute>)>, p: Path,
                                returned: string) {
    || IsReturned(attributes, p, returned)
    || exists e | e in extensions :: [e.0] <= p && IsReturned(e.1, p[1..], returned)
  }

  lemma ReturnabilityIsSchema(attributes: seq<Attribute>, extensions: seq<(string, seq<Attribute>)>, p: Path)
    ensures var r := ReturnabilityPaths(attributes, extensions);
      && (p in r.always <==> SchemaReturns(attributes, extensions, p, "always"))
      && (p in r.never <==> SchemaReturns(attributes, extensions, p, "never") || p == ["password"])
      && (p in r.requested <==> SchemaReturns(attributes, extensions, p, "request"))
  {
    hide IsReturned, Paths, ExtensionPaths;
    PathsExactly(attributes, [], "always", p);
    PathsExactly(attributes, [], "never", p);
    PathsExactly(attributes, [], "request", p);
    ExtensionPathsExactly(extensions, "always", p);
    ExtensionPathsExactly(extensions, "never", p);
    ExtensionPathsExactly(extensions, "request", p);
    var whole: Path := [];
    assert whole <= p && p[|whole|..] == p;
  }

  // ---------- what clients ask for ----------

  /** The client asked for this path or for one it lies under, whatever the case of its letters. */
  ghost predicate AskedFor(fold: string -> string, p: Path, wanted: seq<Path>) {
    exists w | w in wanted :: |w| <= |p| && forall i | 0 <= i < |w| :: fold(w[i]) == fold(p[i])
  }

  lemma RequestedIsAskedFor(fold: string -> string, p: Path, wanted: seq<Path>)
    ensures PathRequested(fold, p, wanted) <==> AskedFor(fold, p, wanted)
  {
    if k :| 0 <= k < |wanted| && Covers(fold, wanted[k], p) {
      assert wanted[k] in wanted;
    }
    if w :| w in wanted && |w| <= |p| && forall i | 0 <= i < |w| :: fold(w[i]) == fold(p[i]) {
      var k :| 0 <= k < |wanted| && wanted[k] == w;
      assert Covers(fold, wanted[k], p);
    }
  }

  /** What the schema hides is not in a response: neither what is never returned, nor what is returned on request and
      was not asked for. */
  lemma SchemasHide(fold: string -> string, d: Document, wanted: seq<Path>, excluded: seq<Path>,
                    attributes: seq<Attribute>, extensions: seq<(string, seq<Attribute>)>, p: Path)
    requires SchemaReturns(attributes, extensions, p, "never")
      || (SchemaReturns(attributes, extensions, p, "request") && !AskedFor(fold, p, wanted))
    ensures Absent(Project(fold, d, wanted, excluded, ReturnabilityPaths(attributes, extensions)), p)
  {
    hide SchemaReturns, AskedFor, Project, ReturnabilityPaths;
    ReturnabilityIsSchema(attributes, extensions, p);
    RequestedIsAskedFor(fold, p, wanted);
    HiddenAttributesAreNotReturned(fold, d, wanted, excluded, ReturnabilityPaths(attributes, extensions), p);
  }

  /** What the schema always returns is there with all that is visible at it. */
  lemma SchemasAlwaysReturn(fold: string -> string, d: Document, wanted: seq<Path>, excluded: seq<Path>,
                            attributes: seq<Attribute>, extensions: seq<(string, seq<Attribute>)>, p: Path)
    requires SchemaReturns(attributes, extensions, p, "always")
    ensures var r := ReturnabilityPaths(attributes, extensions);
      Carries(Project(fold, d, wanted, excluded, r), Visible(fold, d, wanted, r), p)
  {
    hide SchemaReturns, Project, ReturnabilityPaths, Carries, Visible, PartOf;
    ReturnabilityIsSchema(attributes, extensions, p);
    AlwaysAttributesAreReturned(fold, d, wanted, excluded, ReturnabilityPaths(attributes, extensions), p);
  }

  /** What is neither hidden nor excluded is returned as it is, when nothing in particular is asked for. An exclusion
      spares the identity of the resource and what lies on or below an attribute that is always returned. */
  lemma SchemasReturnOthers(fold: string -> string, d: Document, excluded: seq<Path>, attributes: seq<Attribute>,
                            extensions: seq<(string, seq<Attribute>)>, q: Path)
    requires forall p | SchemaReturns(attributes, extensions, p, "never") || p == ["password"]
      || SchemaReturns(attributes, extensions, p, "request") || p in excluded :: !(p <= q) && !(q <= p)
    ensures Keeps(Project(fold, d, [], excluded, ReturnabilityPaths(attributes, extensions)), d, q)
  {
    hide SchemaReturns, Project, ReturnabilityPaths, Keeps, Exempt;
    var r := ReturnabilityPaths(attributes, extensions);
    forall p | p in r.never || p in r.requested || (p in excluded && !Exempt(fold, p, r.always))
      ensures Unrelated(p, q)
    {
      ReturnabilityIsSchema(attributes, extensions, p);
    }
    OtherAttributesAreReturned(fold, d, excluded, r, q);
  }

  /** What a client excludes is gone, unless it is the identity of the resource or always-returned attributes lie
      above, at or below it. */
  lemma SchemasLetExclude(fold: string -> string, d: Document, excluded: seq<Path>, attributes: seq<Attribute>,
                          extensions: seq<(string, seq<Attribute>)>, p: Path)
    requires p in excluded && !(|p| == 1 && (fold(p[0]) == fold("schemas") || fold(p[0]) == fold("id")))
    requires forall q | SchemaReturns(attributes, extensions, q, "always") ::
      !(p <= q) && !(|q| <= |p| && forall i | 0 <= i < |q| :: fold(q[i]) == fold(p[i]))
    ensures Absent(Project(fold, d, [], excluded, ReturnabilityPaths(attributes, extensions)), p)
  {
    hide SchemaReturns, Project, ReturnabilityPaths, Absent;
    var r := ReturnabilityPaths(attributes, extensions);
    forall q | q in r.always
      ensures !(p <= q) && !(|q| <= |p| && forall i | 0 <= i < |q| :: fold(q[i]) == fold(p[i]))
    {
      ReturnabilityIsSchema(attributes, extensions, q);
    }
    RequestedIsAskedFor(fold, p, r.always);
    ExcludedIsGone(fold, d, excluded, r, p);
  }

  // ---------- what deletion leaves behind ----------

  /** On the way to the path no object inside another one is empty. */
  ghost predicate Filled(d: Document, path: Path)
    decreases |path|
  {
    |path| >= 2 && path[0] in d ==>
      match d[path[0]]
      case Object(fields) => fields != map[] && Filled(fields, path[1..])
      case Array(items) => forall x | x in items && x.Object? :: Filled(x.fields, path[1..])
      case _ => true
  }

  lemma {:induction false} DeleteFills(d: Document, path: Path)
    ensures Filled(Delete(d, path), path)
    decreases |path|
  {
    if |path| >= 2 && path[0] in d {
      match d[path[0]]
      case Object(fields) => DeleteFills(fields, path[1..]);
      case Array(items) =>
        forall i | 0 <= i < |items| && items[i].Object?
          ensures Filled(Delete(items[i].fields, path[1..]), path[1..])
        {
          DeleteFills(items[i].fields, path[1..]);
        }
      case _ =>
    }
  }

  lemma {:induction false} DeleteKeepsFilled(d: Document, path: Path, p: Path)
    requires Filled(d, p)
    ensures Filled(Delete(d, path), p)
    decreases |path|
  {
    if |path| >= 2 && |p| >= 2 && path[0] == p[0] && path[0] in d {
      match d[path[0]]
      case Object(fields) => DeleteKeepsFilled(fields, path[1..], p[1..]);
      case Array(items) =>
        forall i | 0 <= i < |items| && items[i].Object?
          ensures Filled(Delete(items[i].fields, path[1..]), p[1..])
        {
          assert items[i] in items;
          DeleteKeepsFilled(items[i].fields, path[1..], p[1..]);
        }
      case _ =>
    }
  }

  /** Deletion leaves no empty object on the way to a deleted path. */
  lemma {:induction false} DeletedLeaveNothingEmpty(d: Document, paths: seq<Path>, p: Path)
    requires p in paths || Filled(d, p)
    ensures Filled(DeleteAll(d, paths), p)
    decreases |paths|
  {
    if paths != [] {
      var once := Delete(d, paths[0]);
      if p == paths[0] {
        DeleteFills(d, p);
      } else if Filled(d, p) {
        DeleteKeepsFilled(d, paths[0], p);
      }
      DeletedLeaveNothingEmpty(once, paths[1..], p);
    }
  }

  /** So what is hidden goes together with the objects that held nothing else. */
  lemma HiddenLeavesNothingEmpty(fold: string -> string, d: Document, wanted: seq<Path>, r: Returnability, p: Path)
    requires p in r.never
    ensures Filled(Visible(fold, d, wanted, r), p)
  {
    DeletedLeaveNothingEmpty(d, r.never, p);
    DeletedLeaveNothingEmpty(DeleteAll(d, r.never), Unrequested(fold, r.requested, wanted), p);
  }
}
