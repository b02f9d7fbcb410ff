/** Rendering stored records: which of the records the server stores it can also read, and inputs
    on which it cannot. */
module StoredResources {
  import opened Values
  import opened Text
  import opened Records
  import opened NormalForm
  import opened NormalFormFacts
  import opened NormalFormTheorems
  import opened ReadBack
  import Json

  // ---------- the codec ----------

  /** Every name is spelled as the decoder spells it. */
  ghost predicate Spelled(rules: Json.Rules, v: Value)
    decreases v
  {
    match v
    case Object(fields) => forall k | k in fields :: Json.Admit(rules, k) == k && Spelled(rules, fields[k])
    case Array(items) => forall x | x in items :: Spelled(rules, x)
    case _ => true
  }

  /** What the module JsonLanguage shows of the decoder, for the codec of the store: decoded names
      are spelled canonically, and such a document that is written and accepted comes back. */
  ghost predicate Codec(lib: Library, rules: Json.Rules) {
    && (forall e | lib.decode(e).Some? :: Spelled(rules, Object(lib.decode(e).value)))
    && (forall d | lib.encode(d).Some? && lib.decode(lib.encode(d).value).Some? && Spelled(rules, Object(d)) ::
          lib.decode(lib.encode(d).value) == Some(d))
    && Json.Admit(rules, ENTERPRISE_SCHEMA) == ENTERPRISE_SCHEMA
  }

  lemma {:induction false} ThinnerIsSpelled(rules: Json.Rules, v: Value, w: Value)
    requires Thinner(v, w) && Spelled(rules, w)
    ensures Spelled(rules, v)
    decreases v
  {
    if v != w {
      match v
      case Object(fields) =>
        forall k | k in fields
          ensures Json.Admit(rules, k) == k && Spelled(rules, fields[k])
        {
          ThinnerIsSpelled(rules, fields[k], w.fields[k]);
        }
      case Array(items) =>
        forall x | x in items
          ensures Spelled(rules, x)
        {
          var y :| y in w.items && Thinner(x, y);
          ThinnerIsSpelled(rules, x, y);
        }
      case _ =>
    }
  }

  lemma SpelledFields(rules: Json.Rules, d: Document)
    ensures Spelled(rules, Object(d)) <==> forall k | k in d :: Json.Admit(rules, k) == k && Spelled(rules, d[k])
  {
    assert Object(d).fields == d;
  }

  lemma EnterpriseIsSpelled(rules: Json.Rules, d: Document)
    requires Spelled(rules, Object(d)) && ValidateEnterprise(d).Some?
    ensures Spelled(rules, Object(ValidateEnterprise(d).value))
  {
    if "manager" in d {
      FewerFieldsThinner(d["manager"].fields, {"displayName"});
      OneFieldThinner(d, "manager", Object(d["manager"].fields - {"displayName"}));
      ThinnerIsSpelled(rules, Object(ValidateEnterprise(d).value), Object(d));
    }
  }

  lemma AdmitKeepsSpelled(h: Host, rules: Json.Rules, d: Document, e: Extension)
    requires Spelled(rules, Object(d)) && Json.Admit(rules, ENTERPRISE_SCHEMA) == ENTERPRISE_SCHEMA
    requires e == Extension(ENTERPRISE_SCHEMA, EnterpriseAttributes(), false, Some(ValidateEnterprise))
    requires AdmitExtension(h, d, e).Some?
    ensures Spelled(rules, Object(AdmitExtension(h, d, e).value))
  {
    hide Spelled, EnterpriseAttributes, ValidateEnterprise;
    var claimed := ClaimExtension(h, d, ENTERPRISE_SCHEMA);
    SpelledFields(rules, d);
    SpelledFields(rules, claimed);
    SpelledFields(rules, AdmitExtension(h, d, e).value);
    EnterpriseIsSpelled(rules, claimed[ENTERPRISE_SCHEMA].fields);
  }

  lemma RespellKeepsSpelled(rules: Json.Rules, d: Document, values: seq<Value>, index: nat, text: string)
    requires Spelled(rules, Object(d)) && (forall x | x in values :: Spelled(rules, x)) && index < |values|
    ensures var next := values[index := Value.Text(text)];
      Spelled(rules, Object(Respell(d, next))) && forall x | x in next :: Spelled(rules, x)
  {
    SpelledFields(rules, d);
    var next := values[index := Value.Text(text)];
    SpelledFields(rules, Respell(d, next));
    assert Spelled(rules, Array(next));
  }

  lemma {:induction false} LoopKeepsSpelled(h: Host, rules: Json.Rules, def: Definition, d: Document,
                                            values: seq<Value>, index: nat, seen: set<string>, base: bool)
    requires WellKnown(def) && Json.Admit(rules, ENTERPRISE_SCHEMA) == ENTERPRISE_SCHEMA
    requires Spelled(rules, Object(d)) && forall x | x in values :: Spelled(rules, x)
    requires SchemaLoop(h, def, d, values, index, seen, base).Some?
    ensures Spelled(rules, Object(SchemaLoop(h, def, d, values, index, seen, base).value))
    decreases |values| - index
  {
    hide Spelled, AdmitExtension, RequiredPresent, WellKnown, Respell, Json.Admit;
    if index < |values| {
      var entry := values[index].text;
      var known := seen + {h.lower(entry)};
      if h.fold(entry) == h.fold(def.schema) {
        var next := values[index := Value.Text(def.schema)];
        RespellKeepsSpelled(rules, d, values, index, def.schema);
        LoopKeepsSpelled(h, rules, def, Respell(d, next), next, index + 1, known, true);
      } else {
        var e := FindExtension(h, def.extensions, h.lower(entry)).value;
        OnlyExtension(def, e);
        var next := values[index := Value.Text(e.schema)];
        RespellKeepsSpelled(rules, d, values, index, e.schema);
        AdmitKeepsSpelled(h, rules, Respell(d, next), e);
        LoopKeepsSpelled(h, rules, def, AdmitExtension(h, Respell(d, next), e).value, next, index + 1, known, base);
      }
    }
  }

  lemma NormalizedIsThinner(def: Definition, d: Document)
    requires WellKnown(def)
    ensures Thinner(Object(Normalized(def, d)), Object(d))
  {
    var a := d - {"id", "meta", "groups"};
    var b := Strip(a, def.attributes);
    var c := StripExtensions(b, def.extensions);
    var t := TidyDocument(c);
    FewerFieldsThinner(d, {"id", "meta", "groups"});
    StripIsThinner(a, def.attributes);
    StripExtensionsIs(def, b);
    TidyDocumentIsThinner(c);
    BalanceIsThinner(Object(t));
    BalanceOf(t);
    var n := Normalized(def, d);
    assert Object(n) == Balance(Object(t));
    hide Thinner, Strip, StripExtensions, Balance, WellKnown, Normalized;
    ThinnerIsTransitive(Object(n), Object(t), Object(c));
    ThinnerIsTransitive(Object(n), Object(c), Object(b));
    ThinnerIsTransitive(Object(n), Object(b), Object(a));
    ThinnerIsTransitive(Object(n), Object(a), Object(d));
  }

  /** Preparation keeps the spelling of names. */
  lemma PreparedIsSpelled(h: Host, rules: Json.Rules, def: Definition, d: Document)
    requires StandardDefinition(def) && Sensible(h) && Prepare(h, def, d).Some?
    requires Spelled(rules, Object(d)) && Json.Admit(rules, ENTERPRISE_SCHEMA) == ENTERPRISE_SCHEMA
    ensures Spelled(rules, Object(Prepare(h, def, d).value.document))
  {
    hide StandardDefinition, WellKnown, Sensible, Spelled, SchemaLoop, Finish, Normalized, Checked;
    StandardFacts(def);
    var n := Normalized(def, d);
    var s := SchemaSet(h, def, n).value;
    PrepareSteps(h, def, d);
    hide Prepare;
    NormalizedIsThinner(def, d);
    ThinnerIsSpelled(rules, Object(n), Object(d));
    ItemsAreSpelled(rules, n);
    LoopKeepsSpelled(h, rules, def, n, SchemaItems(n), 0, {}, false);
    CheckedIsSpelled(h, rules, def, s);
  }

  lemma PrepareSteps(h: Host, def: Definition, d: Document)
    requires Prepare(h, def, d).Some?
    ensures SchemaSet(h, def, Normalized(def, d)).Some?
    ensures var s := SchemaSet(h, def, Normalized(def, d)).value;
      Checked(h, def, s) == Some(Prepare(h, def, d).value.document)
  {
    hide Normalized, SchemaSet, Checked;
  }

  lemma ItemsAreSpelled(rules: Json.Rules, d: Document)
    requires Spelled(rules, Object(d))
    ensures forall x | x in SchemaItems(d) :: Spelled(rules, x)
  {
    SpelledFields(rules, d);
  }

  lemma CheckedIsSpelled(h: Host, rules: Json.Rules, def: Definition, s: Document)
    requires Checked(h, def, s).Some? && Spelled(rules, Object(s)) && (def.name == "User" || def.name == "Group")
    ensures Spelled(rules, Object(Checked(h, def, s).value))
  {
    hide Spelled, UserDetails, GroupDetails, TopLevel, Json.Admit, WithoutDisplay, ValidString;
    if def.name == "User" {
      var k := Checked(h, def, s).value;
      TextIsSpelled(rules, k["userName"]);
      SpelledFields(rules, s);
      SpelledFields(rules, k);
    } else if "members" in s {
      MembersAreArray(h, def, s);
      assert Checked(h, def, s).value == s["members" := Array(WithoutDisplay(s["members"].items))];
      WithoutDisplayIsThinner(s["members"].items);
      OneFieldThinner(s, "members", Array(WithoutDisplay(s["members"].items)));
      ThinnerIsSpelled(rules, Object(Checked(h, def, s).value), Object(s));
    }
  }

  lemma MembersAreArray(h: Host, def: Definition, d: Document)
    requires TopLevel(h, def, d, GROUP_KINDS) && "members" in d
    ensures d["members"].Array?
  {
  }

  lemma TextIsSpelled(rules: Json.Rules, v: Value)
    ensures v.Text? ==> Spelled(rules, v)
  {
  }

  lemma WithoutDisplayIsThinner(items: seq<Value>)
    ensures Thinner(Array(WithoutDisplay(items)), Array(items))
  {
    var plain := WithoutDisplay(items);
    forall x | x in plain
      ensures exists y | y in items :: Thinner(x, y)
    {
      var i :| 0 <= i < |plain| && plain[i] == x;
      if items[i].Object? {
        FewerFieldsThinner(items[i].fields, {"display"});
      }
      assert items[i] in items && Thinner(x, items[i]);
    }
  }

  // ---------- rendering ----------

  function Clone(lib: Library, d: Document): Option<Document> {
    match lib.encode(d) case None => None case Some(e) => lib.decode(e)
  }

  /** Preparation of any document, through a private copy. */
  function PrepareResource(h: Host, lib: Library, def: Definition, d: Document): Option<Prepared> {
    match Clone(lib, d) case None => None case Some(copy) => Prepare(h, def, copy)
  }

  /** A stored record is only rendered if preparing it again reproduces its bytes, indexes and external ID.
      An empty list of indexes is stored as no list, and the comparison tells the two apart. */
  function Render(h: Host, lib: Library, def: Definition, meta: Record -> Value, r: Record): Option<Document> {
    if !ValidRecord(lib, r) || r.resourceType != def.name then None
    else
      match PrepareResource(h, lib, def, lib.decode(r.data).value)
      case None => None
      case Some(p) =>
        if p.externalId != r.externalId || p.indexes != r.indexes || r.indexes == []
           || lib.encode(p.document) != Some(r.data) then None
        else Some(p.document["id" := Value.Text(r.id)]["meta" := meta(r)])
  }

  /** A prepared User or Group has an index: its name. */
  lemma StandardIsIndexed(h: Host, def: Definition, d: Document)
    requires StandardDefinition(def) && Prepare(h, def, d).Some?
    ensures Prepare(h, def, d).value.indexes != []
  {
    hide Normalized, SchemaSet, Checked, Finish, StringPath, UserAttributes, GroupAttributes, EnterpriseAttributes;
    var settled := SchemaSet(h, def, Normalized(def, d)).value;
    var checked := Checked(h, def, settled).value;
    assert Finish(h, def, checked) == Prepare(h, def, d);
    var name := if def.name == "User" then "userName" else "displayName";
    CheckedIsNamed(h, def, settled, name);
    TopLevelPath(checked, name);
    assert def.filterAttributes[0] == name && name in def.filterAttributes;
    FinishIndexes(h, def, checked);
  }

  lemma CheckedIsNamed(h: Host, def: Definition, settled: Document, name: string)
    requires Checked(h, def, settled).Some?
    requires (def.name == "User" && name == "userName") || (def.name == "Group" && name == "displayName")
    ensures var checked := Checked(h, def, settled).value;
      name in checked && checked[name].Text? && checked[name].text != ""
  {
    hide TopLevel, UserDetails, GroupDetails, ValidString, WithoutDisplay, OptionalString;
  }

  lemma FinishIndexes(h: Host, def: Definition, d: Document)
    requires Finish(h, def, d).Some?
    ensures Finish(h, def, d).value.indexes != [] <==>
      exists n | n in def.filterAttributes :: StringPath(d, n).Found?
  {
    hide ValidValues, ValidExtensions, OptionalString, StringPath;
    IndexedExactly(h, def, d, def.filterAttributes);
  }

  /** Whatever the definition: a record stored from a document that prepares to itself is rendered exactly
      when the document has a value at one of the definition's filter attributes. */
  lemma OnlyIndexedResourcesCanBeRead(h: Host, lib: Library, def: Definition, meta: Record -> Value, p: Prepared,
                                      r: Record)
    requires Prepare(h, def, p.document) == Some(p) && Clone(lib, p.document) == Some(p.document)
    requires lib.encode(p.document) == Some(r.data) && r.externalId == p.externalId && r.indexes == p.indexes
    requires ValidRecord(lib, r) && r.resourceType == def.name
    ensures Render(h, lib, def, meta, r) ==
      if exists n | n in def.filterAttributes :: StringPath(p.document, n).Found?
      then Some(p.document["id" := Value.Text(r.id)]["meta" := meta(r)]) else None
  {
    hide ValidRecord, ValidValues, ValidExtensions, Normalized, SchemaSet, Checked, StringPath;
    ValidDataDecodes(lib, r);
    var settled := SchemaSet(h, def, Normalized(def, p.document)).value;
    assert Finish(h, def, p.document) == Some(p);
    FinishIndexes(h, def, p.document);
    hide Prepare;
  }

  lemma {:induction false} IndexedExactly(h: Host, def: Definition, d: Document, names: seq<string>)
    requires Indexes(h, def, d, names).Some?
    ensures Indexes(h, def, d, names).value != [] <==> exists n | n in names :: StringPath(d, n).Found?
  {
    hide StringPath;
    if names != [] {
      IndexedExactly(h, def, d, names[1..]);
    }
  }

  /** A record stored from a prepared document can be rendered exactly when the document was stable. */
  lemma StoredResourcesCanBeRead(h: Host, lib: Library, rules: Json.Rules, def: Definition, meta: Record -> Value,
                                 d: Document, r: Record)
    requires StandardDefinition(def) && Sensible(h) && Codec(lib, rules)
    requires PrepareResource(h, lib, def, d).Some? && ValidRecord(lib, r) && r.resourceType == def.name
    requires var p := PrepareResource(h, lib, def, d).value;
      lib.encode(p.document) == Some(r.data) && r.externalId == p.externalId && r.indexes == p.indexes
    ensures var p := PrepareResource(h, lib, def, d).value;
      Render(h, lib, def, meta, r) ==
        if Stable(h, def, Clone(lib, d).value) then Some(p.document["id" := Value.Text(r.id)]["meta" := meta(r)])
          else None
  {
    hide Prepare, Stable, StandardDefinition, ValidRecord, Sensible, Codec, Spelled;
    var copy := Clone(lib, d).value;
    var p := PrepareResource(h, lib, def, d).value;
    CloneIsSpelled(lib, rules, d);
    PreparedIsSpelled(h, rules, def, copy);
    ValidDataDecodes(lib, r);
    WrittenComesBack(lib, rules, p.document, r.data);
    PreparingTwice(h, def, copy);
    StandardIsIndexed(h, def, copy);
  }

  lemma CloneIsSpelled(lib: Library, rules: Json.Rules, d: Document)
    requires Codec(lib, rules) && Clone(lib, d).Some?
    ensures Spelled(rules, Object(Clone(lib, d).value)) && Json.Admit(rules, ENTERPRISE_SCHEMA) == ENTERPRISE_SCHEMA
  {
  }

  lemma ValidDataDecodes(lib: Library, r: Record)
    requires ValidRecord(lib, r)
    ensures lib.decode(r.data).Some?
  {
  }

  lemma WrittenComesBack(lib: Library, rules: Json.Rules, d: Document, data: string)
    requires Codec(lib, rules) && Spelled(rules, Object(d)) && lib.encode(d) == Some(data) && lib.decode(data).Some?
    ensures lib.decode(data) == Some(d) && Clone(lib, d) == Some(d)
  {
  }

  /** So a created User or Group can be read back exactly when it was stable. */
  lemma CreatedResourcesCanBeRead(h: Host, lib: Library, rules: Json.Rules, def: Definition, meta: Record -> Value,
                                  d: Document, scope: string, manager: string, id: string, now: int, credential: string)
    requires StandardDefinition(def) && Sensible(h) && Codec(lib, rules) && PrepareResource(h, lib, def, d).Some?
    requires var p := PrepareResource(h, lib, def, d).value;
      NewRecord(lib, scope, manager, def.name, id, p.externalId, p.document, p.indexes, now, credential).Some?
    ensures var p := PrepareResource(h, lib, def, d).value;
      var r := NewRecord(lib, scope, manager, def.name, id, p.externalId, p.document, p.indexes, now, credential).value;
      Render(h, lib, def, meta, r).Some? <==> Stable(h, def, Clone(lib, d).value)
  {
    hide PrepareResource, Render, Stable, StandardDefinition, Sensible, Codec;
    var p := PrepareResource(h, lib, def, d).value;
    var r := NewRecord(lib, scope, manager, def.name, id, p.externalId, p.document, p.indexes, now, credential).value;
    StoredResourcesCanBeRead(h, lib, rules, def, meta, d, r);
  }

  /** And so can a replaced or patched one, whenever the replacement changes the record. */
  lemma ReplacedResourcesCanBeRead(h: Host, lib: Library, rules: Json.Rules, def: Definition, meta: Record -> Value,
                                   d: Document, current: Record, now: int, credential: Option<string>)
    requires StandardDefinition(def) && Sensible(h) && Codec(lib, rules) && PrepareResource(h, lib, def, d).Some?
    requires current.resourceType == def.name
    requires var p := PrepareResource(h, lib, def, d).value;
      var next := ReplacementRecord(lib, current, p.externalId, p.document, p.indexes, now, credential);
      next.Some? && next.value.changed
    ensures var p := PrepareResource(h, lib, def, d).value;
      var r := ReplacementRecord(lib, current, p.externalId, p.document, p.indexes, now, credential).value.record;
      Render(h, lib, def, meta, r).Some? <==> Stable(h, def, Clone(lib, d).value)
  {
    hide PrepareResource, Render, Stable, StandardDefinition, Sensible, Codec;
    var p := PrepareResource(h, lib, def, d).value;
    var r := ReplacementRecord(lib, current, p.externalId, p.document, p.indexes, now, credential).value.record;
    StoredResourcesCanBeRead(h, lib, rules, def, meta, d, r);
  }
}
