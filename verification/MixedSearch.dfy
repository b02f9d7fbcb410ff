/** A search over several resource types, whose merged definition makes values of different types
    meet under one sort attribute. */
module MixedSearch {
  import opened Values
  import opened Text
  import opened Order
  import opened Records
  import opened Memory
  import opened ExternalIds
  import opened StoredResources
  import opened FilterMeaning
  import opened Search
  import opened NormalForm
  import opened NormalFormFacts
  import opened NormalFormTheorems
  import opened UnstableUsers
  import Etag
  import Schema

  // ---------- the merged definition ----------

  /** Attributes that are new up to case, behind those that are already there. */
  function Merge(lower: string -> string, merged: seq<Attribute>, more: seq<Attribute>): (r: seq<Attribute>)
    ensures merged <= r
    decreases |more|
  {
    if more == [] then merged
    else
      Merge(lower,
            if exists a | a in merged :: lower(a.name) == lower(more[0].name) then merged else merged + [more[0]],
            more[1..])
  }

  function CombinedAttributes(lower: string -> string, definitions: seq<Definition>): (r: seq<Attribute>)
    requires definitions != []
    ensures definitions[0].attributes <= r
  {
    if |definitions| == 1 then definitions[0].attributes
    else
      var init, last := definitions[..|definitions| - 1], definitions[|definitions| - 1];
      Merge(lower, CombinedAttributes(lower, init), last.attributes)
  }

  /** A custom resource type whose attribute of the same name is Boolean. */
  const WIDGET_SCHEMA := "urn:example:Widget"

  function WidgetDefinition(): Definition {
    Definition("Widget", WIDGET_SCHEMA, [Simple("userName", "boolean")], "", ["externalId"], [])
  }

  function Widget(): Document {
    map["schemas" := Array([Value.Text(WIDGET_SCHEMA)]), "externalId" := Value.Text("w"), "userName" := Bool(true)]
  }

  lemma WidgetIsKnown()
    ensures WellKnown(WidgetDefinition())
  {
  }

  lemma WidgetIsCalm()
    ensures Calm(WidgetDefinition(), Widget()) && ExtensionStripped(WidgetDefinition(), Widget())
  {
    var def, d := WidgetDefinition(), Widget();
    assert def.attributes[1..] == [] && Stripped(d, []) && Stripped(d, def.attributes);
    assert Quiet(Bool(true)) && Quiet(Value.Text("w"));
    hide Stripped, Quiet;
  }

  lemma WidgetIsNormal()
    ensures Normalized(WidgetDefinition(), Widget()) == Widget()
  {
    hide Calm, ExtensionStripped, WellKnown, Balance, Normalized;
    WidgetIsKnown();
    WidgetIsCalm();
    TextsStayBalanced([Value.Text(WIDGET_SCHEMA)]);
    CalmStays(WidgetDefinition(), Widget());
  }

  lemma WidgetSettles(h: Host, def: Definition)
    requires def.schema == WIDGET_SCHEMA && def.extensions == []
    ensures SchemaSet(h, def, Widget()) == Some(Widget())
  {
    var d := Widget();
    var items := [Value.Text(WIDGET_SCHEMA)];
    assert SchemaItems(d) == items;
    assert items[0 := Value.Text(WIDGET_SCHEMA)] == items && Respell(d, items) == d;
    assert SchemaLoop(h, def, d, items, 1, {} + {h.lower(WIDGET_SCHEMA)}, true) == Some(d);
    assert SchemaLoop(h, def, d, items, 0, {}, false) == Some(d);
  }

  function WidgetPrepared(h: Host): Prepared {
    Prepared(Widget(), [IndexKey("externalId", "w", true, h.fold("externalId") == h.fold(""))], "w")
  }

  /** A widget is acceptable to its own definition. */
  lemma WidgetIsAccepted(h: Host)
    requires h.simple(Bool(true), Simple("userName", "boolean"))
    ensures Prepare(h, WidgetDefinition(), Widget()) == Some(WidgetPrepared(h))
  {
    hide Finish, Normalized, SchemaSet;
    WidgetIsNormal();
    WidgetSettles(h, WidgetDefinition());
    WidgetIsFinished(h);
  }

  lemma WidgetIsFinished(h: Host)
    requires h.simple(Bool(true), Simple("userName", "boolean"))
    ensures Finish(h, WidgetDefinition(), Widget()) == Some(WidgetPrepared(h))
  {
    var def, d := WidgetDefinition(), Widget();
    WidgetIsValid(h);
    WidgetHasIdentity();
    WidgetHasIndexes(h);
    hide StringPath, ValidString, ValidValues, OptionalString, Indexes, Widget, WIDGET_SCHEMA;
    assert ValidExtensions(h, d, def.extensions);
  }

  lemma WidgetHasIndexes(h: Host)
    ensures Indexes(h, WidgetDefinition(), Widget(), ["externalId"]) == Some(WidgetPrepared(h).indexes)
  {
    hide StringPath, ValidString, OptionalString;
    WidgetHasIdentity();
    var def, d := WidgetDefinition(), Widget();
    assert Indexes(h, def, d, []) == Some([]);
    IndexesStep(h, def, d, "externalId", []);
    hide Indexes;
    assert ["externalId"] + [] == ["externalId"];
    var index := WidgetPrepared(h).indexes[0];
    assert [index] + [] == [index];
  }

  lemma WidgetIsValid(h: Host)
    requires h.simple(Bool(true), Simple("userName", "boolean"))
    ensures ValidValues(h, Widget(), WidgetDefinition().attributes)
  {
    var def, d := WidgetDefinition(), Widget();
    assert def.attributes[1..] == [] && ValidValues(h, d, []);
  }

  lemma WidgetHasIdentity()
    ensures ValidString("w", MAXIMUM_STRING_BYTES)
    ensures OptionalString(Widget(), "externalId", MAXIMUM_STRING_BYTES) == Some("w")
    ensures StringPath(Widget(), "externalId") == Found("w")
  {
    OneLetter("w");
    hide ValidString, StringPath;
    assert Widget()["externalId"] == Value.Text("w");
    TopLevelPath(Widget(), "externalId");
  }

  lemma UserNameIsFirst()
    ensures UserAttributes() != [] && UserAttributes()[0] == IdentityAttributes()[0]
      && IdentityAttributes()[0].name == "userName" && IdentityAttributes()[0].kind == "string"
  {
    hide Texts, PluralAttributes, OtherAttributes, TextAttributes;
  }

  lemma FirstResolves(fold: string -> string, attributes: seq<Attribute>, name: string)
    requires attributes != [] && attributes[0].name == name && '.' !in name
    ensures Schema.ResolveFrom(fold, attributes, name, []) == Some(Schema.Target([name], attributes[0]))
  {
    WholePart(name);
    hide Split;
    assert [] + [name] == [name];
  }

  /** In a search over Users and widgets, userName is the User's. */
  lemma MergedNameIsTheUsers(fold: string -> string, lower: string -> string)
    ensures Schema.ResolveFrom(fold, CombinedAttributes(lower, [UserDefinition(), WidgetDefinition()]), "userName", [])
         == Some(Schema.Target(["userName"], IdentityAttributes()[0]))
  {
    UserNameIsFirst();
    hide UserAttributes, EnterpriseAttributes, IdentityAttributes, CombinedAttributes, Schema.ResolveFrom;
    var definitions := [UserDefinition(), WidgetDefinition()];
    var all := CombinedAttributes(lower, definitions);
    assert definitions[0].attributes == UserAttributes() <= all;
    assert all[0] == UserAttributes()[0];
    FirstResolves(fold, all, "userName");
  }

  lemma NameIsTheSortValue(d: Document)
    requires "userName" in d && !d["userName"].Array?
    ensures SortValues(d, ["userName"]) == [d["userName"]]
  {
    TopLevelSortValue(d, "userName");
  }

  lemma NamesCross(c: Comparers, o: Ordering, x: Document, y: Document, z: Document)
    requires o.path == ["userName"] && o.attribute.kind == "string"
    requires c.fold("a") == "a" && c.fold("b") == "b"
    requires "userName" in x && x["userName"] == Value.Text("a") && DocumentId(x) == "c"
    requires "userName" in y && y["userName"] == Bool(true) && DocumentId(y) == "b"
    requires "userName" in z && z["userName"] == Value.Text("b") && DocumentId(z) == "a"
    ensures Crossed(c, o, x, y, z)
  {
    NameIsTheSortValue(x);
    NameIsTheSortValue(y);
    NameIsTheSortValue(z);
    hide SortValues, DocumentId;
    LettersCompare();
    hide CompareText;
  }

  lemma LettersCompare()
    ensures CompareText("a", "b") == -1 && CompareText("b", "c") == -1
  {
  }

  // ---------- stored records ----------

  /** The document is written, within the size limit, and read back as it was. */
  predicate Writes(lib: Library, d: Document) {
    match lib.encode(d)
    case None => false
    case Some(data) => 0 < |data| <= MAXIMUM_RESOURCE_BYTES && lib.decode(data) == Some(d)
  }

  /** Every version is one strong entity tag. */
  ghost predicate Tags(lib: Library) {
    forall x :: lib.hash(x).Some? && Etag.SingleStrongTag(lib.hash(x).value).Some?
  }

  function ShortUser(name: string): Document { SmallUser([Value.Text(USER_SCHEMA)], name) }

  /** What the libraries do on the texts and documents of the example. */
  ghost predicate Ordinary(h: Host, lib: Library, c: Comparers) {
    && Sensible(h) && Tags(lib) && h.simple(Bool(true), Simple("userName", "boolean"))
    && (forall s, a: Attribute | s in ["a", "b"] && a.kind == "string" :: h.simple(Value.Text(s), a))
    && (forall s | s in ["a", "b"] :: h.trim(s) == s && h.prepare(s) == Some(s) && c.fold(s) == s)
    && (forall s | s in ["a", "b"] :: Writes(lib, ShortUser(s)) && lib.fold(s) == s) && Writes(lib, Widget())
  }

  /** The record made of a prepared document. */
  function Stored(lib: Library, resourceType: string, id: string, p: Prepared): Option<Record> {
    NewRecord(lib, "s", "", resourceType, id, p.externalId, p.document, p.indexes, 1, "")
  }

  lemma OneLetter(s: string)
    requires |s| == 1 && !IsControl(s[0]) && s[0] as int < 0x80
    ensures forall n: nat | n >= 1 :: ValidString(s, n)
  {
    assert s[1..] == "" && Utf8Length("") == 0;
  }

  lemma StoredIsValid(lib: Library, resourceType: string, id: string, p: Prepared)
    requires Tags(lib) && Writes(lib, p.document) && ValidName(resourceType)
    requires |id| == 1 && 'a' <= id[0] <= 'z'
    requires OptionalString(p.document, "externalId", MAXIMUM_STRING_BYTES) == Some(p.externalId)
    requires ValidString(p.externalId, MAXIMUM_STRING_BYTES) && ValidIndexes(lib, p.document, p.indexes)
    ensures Stored(lib, resourceType, id, p).Some?
    ensures var r := Stored(lib, resourceType, id, p).value;
      && ValidRecord(lib, r) && r.scope == "s" && r.resourceType == resourceType && r.id == id
      && r.indexes == p.indexes && r.externalId == p.externalId && lib.encode(p.document) == Some(r.data)
  {
    hide ValidIndexes, OptionalString, Etag.SingleStrongTag;
    OneLetter(id);
    OneLetter("s");
    assert Utf8Length("") == 0;
    assert ValidString("", 1024);
    hide ValidString;
    assert Etag.SingleStrongTag("") == None by { NoTag(); }
  }

  lemma NoTag()
    ensures Etag.SingleStrongTag("") == None
  {
  }

  /** A record of a document that prepares to itself is valid and rendered. */
  lemma StoredRenders(h: Host, lib: Library, def: Definition, meta: Record -> Value, id: string, p: Prepared)
    requires Tags(lib) && Writes(lib, p.document) && ValidName(def.name) && |id| == 1 && 'a' <= id[0] <= 'z'
    requires Prepare(h, def, p.document) == Some(p) && ValidString(p.externalId, MAXIMUM_STRING_BYTES)
    requires OptionalString(p.document, "externalId", MAXIMUM_STRING_BYTES) == Some(p.externalId)
    requires |p.indexes| == 1 && ValidIndexes(lib, p.document, p.indexes) && p.indexes[0].name in def.filterAttributes
    ensures Stored(lib, def.name, id, p).Some?
    ensures var r := Stored(lib, def.name, id, p).value;
      && ValidRecord(lib, r) && r.scope == "s" && r.resourceType == def.name && r.id == id && r.indexes == p.indexes
      && Render(h, lib, def, meta, r) == Some(p.document["id" := Value.Text(id)]["meta" := meta(r)])
  {
    hide OptionalString, ValidString, ValidRecord, Render, Prepare;
    StoredIsValid(lib, def.name, id, p);
    var r := Stored(lib, def.name, id, p).value;
    OnlyIndexedResourcesCanBeRead(h, lib, def, meta, p, r);
    assert StringPath(p.document, p.indexes[0].name).Found?;
  }

  /** The same widget under a definition that indexes nothing is accepted and stored, but the record is
      never rendered. */
  lemma UnindexedWidgetIsLost(h: Host, lib: Library, meta: Record -> Value)
    requires Tags(lib) && Writes(lib, Widget()) && h.simple(Bool(true), Simple("userName", "boolean"))
    ensures var def := WidgetDefinition().(filterAttributes := []);
      var p := Prepare(h, def, Widget());
      && p == Some(Prepared(Widget(), [], "w"))
      && Stored(lib, "Widget", "a", p.value).Some?
      && ValidRecord(lib, Stored(lib, "Widget", "a", p.value).value)
      && Render(h, lib, def, meta, Stored(lib, "Widget", "a", p.value).value) == None
  {
    var def, p := WidgetDefinition().(filterAttributes := []), Prepared(Widget(), [], "w");
    hide OptionalString, ValidString, ValidRecord, Render, Prepare, ValidName, Stored, Widget, Tags, Writes, Simple;
    UnindexedIsPrepared(h, def, p);
    WidgetHasIdentity();
    TypeNames();
    UnindexedIsLost(h, lib, def, meta, "a", p);
  }

  lemma UnindexedIsLost(h: Host, lib: Library, def: Definition, meta: Record -> Value, id: string, p: Prepared)
    requires Tags(lib) && Writes(lib, p.document) && ValidName(def.name) && |id| == 1 && 'a' <= id[0] <= 'z'
    requires Prepare(h, def, p.document) == Some(p) && ValidString(p.externalId, MAXIMUM_STRING_BYTES)
    requires OptionalString(p.document, "externalId", MAXIMUM_STRING_BYTES) == Some(p.externalId)
    requires p.indexes == [] && def.filterAttributes == []
    ensures Stored(lib, def.name, id, p).Some? && ValidRecord(lib, Stored(lib, def.name, id, p).value)
    ensures Render(h, lib, def, meta, Stored(lib, def.name, id, p).value) == None
  {
    hide OptionalString, ValidString, ValidRecord, Render, Prepare;
    StoredIsValid(lib, def.name, id, p);
    OnlyIndexedResourcesCanBeRead(h, lib, def, meta, p, Stored(lib, def.name, id, p).value);
  }

  lemma UnindexedIsPrepared(h: Host, def: Definition, p: Prepared)
    requires def == WidgetDefinition().(filterAttributes := []) && p == Prepared(Widget(), [], "w")
    requires h.simple(Bool(true), Simple("userName", "boolean"))
    ensures Prepare(h, def, Widget()) == Some(p)
  {
    hide Finish, Normalized, SchemaSet;
    WidgetIsNormal();
    SameNormalForm(def, WidgetDefinition(), Widget());
    WidgetSettles(h, def);
    UnindexedIsFinished(h, def, p);
  }

  lemma SameNormalForm(def: Definition, other: Definition, d: Document)
    requires def.attributes == other.attributes && def.extensions == other.extensions
    ensures Normalized(def, d) == Normalized(other, d)
  {
    hide Strip, StripExtensions, TidyDocument, Balance;
  }

  lemma UnindexedIsFinished(h: Host, def: Definition, p: Prepared)
    requires def == WidgetDefinition().(filterAttributes := []) && p == Prepared(Widget(), [], "w")
    requires h.simple(Bool(true), Simple("userName", "boolean"))
    ensures Finish(h, def, Widget()) == Some(p)
  {
    WidgetIsValid(h);
    WidgetHasIdentity();
    assert Indexes(h, def, Widget(), []) == Some([]);
    hide StringPath, ValidString, ValidValues, OptionalString, Indexes, Widget, WIDGET_SCHEMA;
    assert ValidExtensions(h, Widget(), def.extensions);
  }

  lemma UserRenders(h: Host, lib: Library, c: Comparers, meta: Record -> Value, name: string, id: string)
    requires Ordinary(h, lib, c) && name in ["a", "b"] && |id| == 1 && 'a' <= id[0] <= 'z'
    ensures var p := SmallPrepared(h, 1, name);
      && p.document == ShortUser(name) && Prepare(h, UserDefinition(), ShortUser(name)) == Some(p)
      && Stored(lib, "User", id, p).Some?
      && var r := Stored(lib, "User", id, p).value;
         && ValidRecord(lib, r) && r.scope == "s" && r.resourceType == "User" && r.id == id && r.indexes == p.indexes
         && Render(h, lib, UserDefinition(), meta, r)
              == Some(ShortUser(name)["id" := Value.Text(id)]["meta" := meta(r)])
  {
    var p := SmallPrepared(h, 1, name);
    ShortUserIsAccepted(h, lib, c, name);
    ShortUserIsIndexed(h, lib, name);
    TypeNames();
    hide Prepare, Sensible, UserAttributes, EnterpriseAttributes, Render, ValidRecord, StringPath, ValidString,
         ValidIndexes, SmallPrepared, OptionalString, ValidName, Stored;
    StoredRenders(h, lib, UserDefinition(), meta, id, p);
  }

  lemma TypeNames()
    ensures ValidName("User") && ValidName("Widget")
  {
  }

  lemma ShortUserIsAccepted(h: Host, lib: Library, c: Comparers, name: string)
    requires Ordinary(h, lib, c) && name in ["a", "b"]
    ensures Prepare(h, UserDefinition(), ShortUser(name)) == Some(SmallPrepared(h, 1, name))
    ensures Writes(lib, ShortUser(name)) && Tags(lib)
  {
    hide Prepare, Sensible, UserAttributes, EnterpriseAttributes, Fresh, IsBase;
    OneEntry(h);
    OneLetter(name);
    SmallUserIsAccepted(h, [Value.Text(USER_SCHEMA)], name, name);
  }

  lemma ShortUserIsIndexed(h: Host, lib: Library, name: string)
    requires name in ["a", "b"]
    ensures var p := SmallPrepared(h, 1, name);
      && p.document == ShortUser(name) && ValidIndexes(lib, p.document, p.indexes) && |p.indexes| == 1
      && p.indexes[0].name == UserDefinition().filterAttributes[0] && p.externalId == ""
      && OptionalString(p.document, "externalId", MAXIMUM_STRING_BYTES) == Some("")
      && ValidString("", MAXIMUM_STRING_BYTES)
  {
    hide UserAttributes, EnterpriseAttributes, StringPath, ValidAttributeName, ValidIndexes, ValidName;
    var p := SmallPrepared(h, 1, name);
    assert seq(1, _ => Value.Text(USER_SCHEMA)) == [Value.Text(USER_SCHEMA)];
    assert Utf8Length("") == 0;
    ShortUserIsNamed(lib, name, p.indexes[0]);
  }

  lemma ShortUserIsNamed(lib: Library, name: string, index: IndexKey)
    requires name in ["a", "b"] && index.name == "userName" && index.value == name
    ensures ValidIndexes(lib, ShortUser(name), [index])
  {
    hide StringPath, ValidAttributeName, ValidIndexes, ValidName;
    OneLetter(name);
    TopLevelPath(ShortUser(name), "userName");
    AttributeNames();
    PlainAttribute("userName");
    hide ValidString;
    OneIndexIsValid(lib, ShortUser(name), index);
  }

  lemma PlainAttribute(name: string)
    requires ValidName(name)
    ensures ValidAttributeName(name)
  {
    NoDot(name);
    WholePart(name);
    hide ValidName, Split;
  }

  lemma NoDot(name: string)
    requires ValidName(name)
    ensures '.' !in name
  {
    assert !NameChar('.');
    hide NameChar;
  }

  lemma AttributeNames()
    ensures ValidName("userName") && ValidName("externalId")
  {
  }

  lemma WidgetRenders(h: Host, lib: Library, c: Comparers, meta: Record -> Value, id: string)
    requires Ordinary(h, lib, c) && |id| == 1 && 'a' <= id[0] <= 'z'
    ensures var p := WidgetPrepared(h);
      && Stored(lib, "Widget", id, p).Some?
      && var r := Stored(lib, "Widget", id, p).value;
         && ValidRecord(lib, r) && r.scope == "s" && r.resourceType == "Widget" && r.id == id
         && Render(h, lib, WidgetDefinition(), meta, r)
              == Some(Widget()["id" := Value.Text(id)]["meta" := meta(r)])
  {
    var p := WidgetPrepared(h);
    WidgetIsAccepted(h);
    WidgetIsIndexed(h, lib);
    TypeNames();
    hide Prepare, Sensible, Render, ValidRecord, StringPath, ValidString, ValidIndexes, OptionalString, ValidName,
         Stored;
    StoredRenders(h, lib, WidgetDefinition(), meta, id, p);
  }

  lemma WidgetIsIndexed(h: Host, lib: Library)
    ensures var p := WidgetPrepared(h);
      && ValidIndexes(lib, p.document, p.indexes) && ValidString("w", MAXIMUM_STRING_BYTES)
      && OptionalString(p.document, "externalId", MAXIMUM_STRING_BYTES) == Some("w")
  {
    hide StringPath, ValidString, OptionalString, ValidAttributeName, ValidIndexes;
    WidgetHasIdentity();
    WidgetIsIdentified(lib, WidgetPrepared(h).indexes[0]);
  }

  lemma WidgetIsIdentified(lib: Library, index: IndexKey)
    requires index.name == "externalId" && index.value == "w"
    ensures ValidIndexes(lib, Widget(), [index])
  {
    hide StringPath, ValidString, OptionalString, ValidAttributeName, ValidIndexes, ValidName;
    WidgetHasIdentity();
    AttributeNames();
    PlainAttribute("externalId");
    OneIndexIsValid(lib, Widget(), index);
  }

  lemma OneIndexIsValid(lib: Library, d: Document, index: IndexKey)
    requires ValidAttributeName(index.name) && index.value != "" && ValidString(index.value, MAXIMUM_STRING_BYTES)
    requires StringPath(d, index.name) == Found(index.value)
    ensures ValidIndexes(lib, d, [index])
  {
    hide StringPath, ValidString, ValidAttributeName;
  }

  lemma CreateAdds(lib: Library, s: StoreState, r: Record)
    requires ValidRecord(lib, r) && s.tombstones == map[] && !IdentityTaken(s, r) && !IndexConflict(lib, s, r, "")
    ensures Step(lib, s, Create(r)) == s.(records := s.records[RecordKey(r.resourceType, r.id) := r])
  {
    hide ValidRecord, IdentityTaken, IndexConflict;
  }

  /** Three creates from the empty store. */
  lemma AllAreCreated(lib: Library, a: Record, w: Record, b: Record)
    requires ValidRecord(lib, a) && ValidRecord(lib, w) && ValidRecord(lib, b)
    requires a.id != w.id && a.id != b.id && w.id != b.id
    requires a.resourceType == b.resourceType == "User" && w.resourceType == "Widget"
    requires !RecordsClash(lib, b, a)
    ensures Steps(lib, EMPTY, [Create(a), Create(w), Create(b)]).records.Values == {a, w, b}
  {
    hide ValidRecord, RecordsClash, Step;
    var i, j, k := RecordKey("User", a.id), RecordKey("Widget", w.id), RecordKey("User", b.id);
    DifferentKeys("User", a.id, b.id);
    assert i != j && j != k by { assert i[0] == k[0] == 'U' && j[0] == 'W'; }
    hide RecordKey;
    var script := [Create(a), Create(w), Create(b)];
    assert script[..2] == [Create(a), Create(w)] && script[..2][..1] == [Create(a)] && [Create(a)][..0] == [];
    assert Steps(lib, EMPTY, []) == EMPTY;
    CreateAdds(lib, EMPTY, a);
    var one := Steps(lib, EMPTY, [Create(a)]);
    assert one == Step(lib, EMPTY, Create(a)) && one.records == map[i := a];
    CreateAdds(lib, one, w);
    var two := Steps(lib, EMPTY, script[..2]);
    assert two == Step(lib, one, Create(w)) && two.records == map[i := a, j := w];
    CreateAdds(lib, two, b);
    var three := Steps(lib, EMPTY, script);
    assert three == Step(lib, two, Create(b)) && three.records == map[i := a, j := w, k := b];
    hide Steps;
    assert three.records[i] == a && three.records[j] == w && three.records[k] == b;
  }

  /** Two Users and a widget, each prepared by its own definition, stored and rendered, so that one
      search over both types sorts all three: by userName as that search resolves it, the comparator
      puts them in a circle. */
  lemma IncomparableValuesMakeCycles(h: Host, lib: Library, c: Comparers, meta: Record -> Value)
    requires Ordinary(h, lib, c)
    ensures var p, q, u := Prepare(h, UserDefinition(), ShortUser("a")), Prepare(h, WidgetDefinition(), Widget()),
                           Prepare(h, UserDefinition(), ShortUser("b"));
      && p.Some? && q.Some? && u.Some?
      && var a, w, b := Stored(lib, "User", "c", p.value), Stored(lib, "Widget", "b", q.value),
                        Stored(lib, "User", "a", u.value);
         && a.Some? && w.Some? && b.Some?
         && Steps(lib, EMPTY, [Create(a.value), Create(w.value), Create(b.value)]).records.Values
              == {a.value, w.value, b.value}
         && Circular(c, h.lower, Render(h, lib, UserDefinition(), meta, a.value),
                     Render(h, lib, WidgetDefinition(), meta, w.value),
                     Render(h, lib, UserDefinition(), meta, b.value))
  {
    hide Ordinary, Prepare, Render, Steps, ValidRecord, WidgetDefinition, UserDefinition;
    UserRenders(h, lib, c, meta, "a", "c");
    UserRenders(h, lib, c, meta, "b", "a");
    WidgetRenders(h, lib, c, meta, "b");
    assert Prepare(h, WidgetDefinition(), Widget()) == Some(WidgetPrepared(h)) by {
      assert Ordinary(h, lib, c);
      WidgetIsOrdinary(h, lib, c);
    }
    var p, u := SmallPrepared(h, 1, "a"), SmallPrepared(h, 1, "b");
    var a, b := Stored(lib, "User", "c", p).value, Stored(lib, "User", "a", u).value;
    var w := Stored(lib, "Widget", "b", WidgetPrepared(h)).value;
    hide Stored, SmallPrepared;
    NamesDoNotClash(h, lib, c, a, b);
    AllAreCreated(lib, a, w, b);
    Circle(h, lib, c, meta(a), meta(w), meta(b));
  }

  lemma WidgetIsOrdinary(h: Host, lib: Library, c: Comparers)
    requires Ordinary(h, lib, c)
    ensures Prepare(h, WidgetDefinition(), Widget()) == Some(WidgetPrepared(h))
  {
    hide Prepare;
    WidgetIsAccepted(h);
  }

  lemma NamesDoNotClash(h: Host, lib: Library, c: Comparers, a: Record, b: Record)
    requires Ordinary(h, lib, c)
    requires a.indexes == SmallPrepared(h, 1, "a").indexes && b.indexes == SmallPrepared(h, 1, "b").indexes
    ensures !RecordsClash(lib, b, a)
  {
  }

  /** Three rendered documents, sorted by userName as a search over Users and widgets resolves it, go
      round: the comparator puts the first before the third, that before the second, and the second before
      the first. */
  ghost predicate Circular(c: Comparers, lower: string -> string, x: Option<Document>, y: Option<Document>,
                           z: Option<Document>) {
    var target := Schema.ResolveFrom(c.fold, CombinedAttributes(lower, [UserDefinition(), WidgetDefinition()]),
                                     "userName", []);
    && x.Some? && y.Some? && z.Some? && target.Some?
    && var o := Ordering(target.value.path, target.value.contract, false);
       && Precedes(c, o, x.value, z.value) && Precedes(c, o, z.value, y.value) && Precedes(c, o, y.value, x.value)
       && DistinctDocumentIds([x.value, y.value, z.value])
       && !StrictTotalOn(Comparator(c, o), [x.value, y.value, z.value])
  }

  function WithMeta(d: Document, id: string, meta: Value): Document { d["id" := Value.Text(id)]["meta" := meta] }

  lemma Circle(h: Host, lib: Library, c: Comparers, k: Value, m: Value, n: Value)
    requires Ordinary(h, lib, c)
    ensures Circular(c, h.lower, Some(WithMeta(ShortUser("a"), "c", k)), Some(WithMeta(Widget(), "b", m)),
                     Some(WithMeta(ShortUser("b"), "a", n)))
  {
    var x, y, z := WithMeta(ShortUser("a"), "c", k), WithMeta(Widget(), "b", m), WithMeta(ShortUser("b"), "a", n);
    var o := Ordering(["userName"], IdentityAttributes()[0], false);
    UserNameIsFirst();
    hide UserDefinition, WidgetDefinition, IdentityAttributes, Crossed, UserAttributes;
    StandingDocuments(h, lib, c, k, m, n);
    hide Ordinary, WithMeta, Circular;
    NamesCross(c, o, x, y, z);
    CrossedIsCircular(c, h.lower, x, y, z);
  }

  lemma CrossedIsCircular(c: Comparers, lower: string -> string, x: Document, y: Document, z: Document)
    requires Crossed(c, Ordering(["userName"], IdentityAttributes()[0], false), x, y, z)
    requires DocumentId(x) == "c" && DocumentId(y) == "b" && DocumentId(z) == "a"
    ensures Circular(c, lower, Some(x), Some(y), Some(z))
  {
    hide Schema.ResolveFrom, CombinedAttributes, UserDefinition, WidgetDefinition, Crossed, Precedes,
         StrictTotalOn, DocumentId, Comparator;
    var o := Ordering(["userName"], IdentityAttributes()[0], false);
    MergedNameIsTheUsers(c.fold, lower);
    hide IdentityAttributes;
    CrossedIsACycle(c, o, x, y, z);
    ThreeCrossed(c, o, x, y, z);
  }

  lemma StandingDocuments(h: Host, lib: Library, c: Comparers, k: Value, m: Value, n: Value)
    requires Ordinary(h, lib, c)
    ensures c.fold("a") == "a" && c.fold("b") == "b"
    ensures var x, y, z := WithMeta(ShortUser("a"), "c", k), WithMeta(Widget(), "b", m),
      WithMeta(ShortUser("b"), "a", n);
      && DocumentId(x) == "c" && DocumentId(y) == "b" && DocumentId(z) == "a"
      && "userName" in x && x["userName"] == Value.Text("a") && "userName" in y && y["userName"] == Bool(true)
      && "userName" in z && z["userName"] == Value.Text("b")
  {
    assert "a" in ["a", "b"] && "b" in ["a", "b"];
    hide Ordinary;
  }

  lemma ThreeCrossed(c: Comparers, o: Ordering, x: Document, y: Document, z: Document)
    requires Crossed(c, o, x, y, z)
    ensures !StrictTotalOn(Comparator(c, o), [x, y, z])
  {
    var s := [x, y, z];
    assert s[0] == x && s[1] == y && s[2] == z && x in s && y in s && z in s;
    hide Crossed, Precedes, StrictTotalOn;
    CrossedIsACycle(c, o, x, y, z);
    if StrictTotalOn(Comparator(c, o), s) {
      NoCircle(Comparator(c, o), s, x, y, z);
      NoCircle(Comparator(c, o), s, x, z, y);
      assert false;
    }
  }
}
