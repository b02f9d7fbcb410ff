/** Schema attributes and how a filter path is resolved against them. */
module Schema {
  import opened Values
  import opened Text

  datatype Attribute = Attribute(name: string, kind: string, multiValued: bool, required: bool, caseExact: bool,
                                 mutability: string, returned: string, subAttributes: seq<Attribute>)

  /** A resolved path: canonical names from the document root, and the attribute found there. */
  datatype Target = Target(path: seq<string>, contract: Attribute)

  /** The first sub-attribute whose name folds to the wanted one. */
  function FindSub(fold: string -> string, attributes: seq<Attribute>, name: string): (r: Option<Attribute>)
    ensures r.Some? ==> r.value in attributes && fold(r.value.name) == fold(name)
    ensures r.None? ==> forall a | a in attributes :: fold(a.name) != fold(name)
  {
    if attributes == [] then None
    else if fold(attributes[0].name) == fold(name) then Some(attributes[0])
    else FindSub(fold, attributes[1..], name)
  }

  /** The attribute goes by the first name, and has a sub-attribute of the second if there is one. */
  ghost predicate Answers(fold: string -> string, a: Attribute, parts: seq<string>)
    requires 0 < |parts| <= 2
  {
    fold(a.name) == fold(parts[0])
      && (|parts| == 2 ==> exists s | s in a.subAttributes :: fold(s.name) == fold(parts[1]))
  }

  /** The target is the attribute, or its sub-attribute of the second name. */
  ghost predicate Resolved(fold: string -> string, a: Attribute, parts: seq<string>, prefix: seq<string>, t: Target)
    requires 0 < |parts| <= 2
  {
    if |parts| == 1 then t == Target(prefix + [a.name], a)
    else
      && t.contract in a.subAttributes && fold(t.contract.name) == fold(parts[1])
      && t.path == prefix + [a.name, t.contract.name]
  }

  /** One or two names joined by a dot. An attribute without the wanted sub-attribute is passed over. */
  function ResolveParts(fold: string -> string, attributes: seq<Attribute>, parts: seq<string>, prefix: seq<string>):
    (r: Option<Target>)
    requires |parts| > 0
    ensures r.None? <==> |parts| > 2 || forall a | a in attributes :: !Answers(fold, a, parts)
    ensures r.Some? ==> exists a | a in attributes ::
      Answers(fold, a, parts) && Resolved(fold, a, parts, prefix, r.value)
  {
    if |parts| > 2 || attributes == [] then None
    else
      var a := attributes[0];
      assert a in attributes && forall b :: b in attributes <==> b == a || b in attributes[1..];
      if fold(a.name) != fold(parts[0]) then
        assert !Answers(fold, a, parts);
        ResolveParts(fold, attributes[1..], parts, prefix)
      else if |parts| == 1 then
        assert Answers(fold, a, parts);
        Some(Target(prefix + [a.name], a))
      else
        match FindSub(fold, a.subAttributes, parts[1])
        case Some(sub) =>
          assert Answers(fold, a, parts) && Resolved(fold, a, parts, prefix, Target(prefix + [a.name, sub.name], sub));
          Some(Target(prefix + [a.name, sub.name], sub))
        case None =>
          assert !Answers(fold, a, parts);
          ResolveParts(fold, attributes[1..], parts, prefix)
  }

  function ResolveFrom(fold: string -> string, attributes: seq<Attribute>, raw: string,
                       prefix: seq<string>): Option<Target> {
    ResolveParts(fold, attributes, Split(raw, '.'), prefix)
  }
}
