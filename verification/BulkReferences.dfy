/** bulkId references inside bulk data: collecting them and resolving them. */
module BulkReferences {
  import opened Values

  const BULK_PREFIX := "bulkId:"

  /** What a successful bulk operation makes available under its bulkId. */
  datatype Reference = Reference(id: string, location: string)

  predicate IsReference(text: string) {
    |BULK_PREFIX| < |text| && BULK_PREFIX <= text
  }

  function ReferenceName(text: string): string
    requires IsReference(text)
  {
    text[|BULK_PREFIX|..]
  }

  /** Every bulkId mentioned anywhere in a value. */
  function References(v: Value): set<string> {
    match v
    case Text(s) => if IsReference(s) then {ReferenceName(s)} else {}
    case Object(fields) => set k, r | k in fields && r in References(fields[k]) :: r
    case Array(items) => set i, r | 0 <= i < |items| && r in References(items[i]) :: r
    case _ => {}
  }

  /** The dependency walk: it adds what it finds to one shared accumulator. */
  method Collect(v: Value, found: set<string>) returns (result: set<string>)
    ensures result == found + References(v)
    decreases v
  {
    result := found;
    match v
    case Text(s) =>
      if IsReference(s) {
        result := result + {ReferenceName(s)};
      }
    case Object(fields) =>
      var rest := fields.Keys;
      while rest != {}
        invariant rest <= fields.Keys
        invariant found <= result <= found + References(v)
        invariant forall k | k in fields && k !in rest :: References(fields[k]) <= result
        decreases rest
      {
        var key :| key in rest;
        result := Collect(fields[key], result);
        rest := rest - {key};
      }
    case Array(items) =>
      for n := 0 to |items|
        invariant found <= result <= found + References(v)
        invariant forall i | 0 <= i < n :: References(items[i]) <= result
      {
        result := Collect(items[n], result);
      }
    case _ =>
  }

  /** Replaces every reference by the identifier it stands for, or by the location
      when it is the value of a "$ref" field. None when some reference is unknown. */
  function Resolve(v: Value, field: string, known: map<string, Reference>): Option<Value> {
    match v
    case Text(s) =>
      if !IsReference(s) then Some(v)
      else if ReferenceName(s) in known then
        var target := known[ReferenceName(s)];
        Some(Text(if field == "$ref" then target.location else target.id))
      else None
    case Object(fields) =>
      if forall k | k in fields :: Resolve(fields[k], k, known).Some?
      then Some(Object(map k | k in fields :: Resolve(fields[k], k, known).value))
      else None
    case Array(items) =>
      if forall i | 0 <= i < |items| :: Resolve(items[i], field, known).Some?
      then Some(Array(seq(|items|, i requires 0 <= i < |items| => Resolve(items[i], field, known).value)))
      else None
    case _ => Some(v)
  }

  /** The walk and the resolver agree: a value resolves exactly when all its references are known. */
  lemma {:induction false} ResolvesExactlyWhenKnown(v: Value, field: string, known: map<string, Reference>)
    ensures Resolve(v, field, known).Some? <==> References(v) <= known.Keys
    decreases v
  {
    match v
    case Object(fields) =>
      forall k | k in fields
        ensures Resolve(fields[k], k, known).Some? <==> References(fields[k]) <= known.Keys
      {
        ResolvesExactlyWhenKnown(fields[k], k, known);
      }
      assert forall k | k in fields :: References(fields[k]) <= References(v);
    case Array(items) =>
      forall i | 0 <= i < |items|
        ensures Resolve(items[i], field, known).Some? <==> References(items[i]) <= known.Keys
      {
        ResolvesExactlyWhenKnown(items[i], field, known);
      }
      assert forall i | 0 <= i < |items| :: References(items[i]) <= References(v);
    case _ =>
  }

  /** Generated identifiers and locations are not references themselves. */
  predicate Plain(known: map<string, Reference>) {
    forall name | name in known :: !IsReference(known[name].id) && !IsReference(known[name].location)
  }

  /** A resolved value mentions no bulkId any more, so resolving it again leaves it alone. */
  lemma {:induction false} ResolvedIsReferenceFree(v: Value, field: string, known: map<string, Reference>)
    requires Plain(known)
    requires Resolve(v, field, known).Some?
    ensures References(Resolve(v, field, known).value) == {}
    decreases v
  {
    match v
    case Object(fields) =>
      forall k | k in fields
        ensures References(Resolve(fields[k], k, known).value) == {}
      {
        ResolvedIsReferenceFree(fields[k], k, known);
      }
    case Array(items) =>
      forall i | 0 <= i < |items|
        ensures References(Resolve(items[i], field, known).value) == {}
      {
        ResolvedIsReferenceFree(items[i], field, known);
      }
    case _ =>
  }

  /** Values without references pass through unchanged, whatever is known. */
  lemma {:induction false} ReferenceFreeIsUnchanged(v: Value, field: string, known: map<string, Reference>)
    requires References(v) == {}
    ensures Resolve(v, field, known) == Some(v)
    decreases v
  {
    match v
    case Object(fields) =>
      forall k | k in fields
        ensures Resolve(fields[k], k, known) == Some(fields[k])
      {
        assert References(fields[k]) <= References(v);
        ReferenceFreeIsUnchanged(fields[k], k, known);
      }
      assert Resolve(v, field, known).value.fields == fields;
    case Array(items) =>
      forall i | 0 <= i < |items|
        ensures Resolve(items[i], field, known) == Some(items[i])
      {
        assert References(items[i]) <= References(v);
        ReferenceFreeIsUnchanged(items[i], field, known);
      }
      assert Resolve(v, field, known).value.items == items;
    case _ =>
  }

  /** Only the entries a value mentions matter: knowing more bulkIds never changes a resolution. */
  lemma {:induction false} ResolutionIsStable(
    v: Value, field: string, known: map<string, Reference>, more: map<string, Reference>)
    requires References(v) <= known.Keys <= more.Keys
    requires forall name | name in References(v) :: known[name] == more[name]
    ensures Resolve(v, field, known) == Resolve(v, field, more)
    decreases v
  {
    match v
    case Object(fields) =>
      forall k | k in fields
        ensures Resolve(fields[k], k, known) == Resolve(fields[k], k, more)
      {
        assert References(fields[k]) <= References(v);
        ResolutionIsStable(fields[k], k, known, more);
      }
      assert Resolve(v, field, known).Some? ==>
        Resolve(v, field, known).value.fields == Resolve(v, field, more).value.fields;
    case Array(items) =>
      forall i | 0 <= i < |items|
        ensures Resolve(items[i], field, known) == Resolve(items[i], field, more)
      {
        assert References(items[i]) <= References(v);
        ResolutionIsStable(items[i], field, known, more);
      }
      assert Resolve(v, field, known).Some? ==>
        Resolve(v, field, known).value.items == Resolve(v, field, more).value.items;
    case _ =>
  }
}
