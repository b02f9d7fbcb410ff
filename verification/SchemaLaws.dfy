/** What an accepted document is: its values meet their attributes at every depth, and what is read off it
    are its indexes and its external ID. */
module SchemaLaws {
  import opened Values
  import opened Text
  import opened Records
  import opened NormalForm

  // ---------- values meet their attributes ----------

  /** Every declared attribute is there if it must be, and holds what it may. */
  ghost predicate Meets(h: Host, fields: Document, attributes: seq<Attribute>)
    decreases attributes, 1
  {
    forall a | a in attributes ::
      && (a.required ==> a.name in fields)
      && (a.name in fields ==>
            if a.multiValued then fields[a.name].Array? && forall x | x in fields[a.name].items :: Suits(h, x, a)
            else !fields[a.name].Array? && Suits(h, fields[a.name], a))
  }

  /** A complex value is an object with declared names that meets the sub-attributes. */
  ghost predicate Suits(h: Host, v: Value, a: Attribute)
    decreases a, 2
  {
    if a.kind == "complex" then v.Object? && Declared(v.fields, a.subAttributes) && Meets(h, v.fields, a.subAttributes)
    else h.simple(v, a)
  }

  ghost predicate Declared(fields: Document, attributes: seq<Attribute>) {
    forall k | k in fields :: exists a | a in attributes :: a.name == k
  }

  /** The object of every extension that is there has declared names and meets the extension's attributes. */
  ghost predicate ExtensionsMeet(h: Host, d: Document, extensions: seq<Extension>) {
    forall e | e in extensions && e.schema in d && d[e.schema].Object? ::
      Declared(d[e.schema].fields, e.attributes) && Meets(h, d[e.schema].fields, e.attributes)
  }

  lemma {:induction false} ValidIsMeeting(h: Host, d: Document, attributes: seq<Attribute>)
    ensures ValidValues(h, d, attributes) <==> Meets(h, d, attributes)
    decreases attributes, 1
  {
    if attributes != [] {
      var a, rest := attributes[0], attributes[1..];
      assert forall b :: b in attributes <==> b == a || b in rest;
      ValidIsMeeting(h, d, rest);
      forall v
        ensures ValidValue(h, v, a) <==> Suits(h, v, a)
      {
        ValidIsSuiting(h, v, a);
      }
      hide Suits, ValidValue;
      if a.name in d && d[a.name].Array? {
        assert forall i | 0 <= i < |d[a.name].items| :: d[a.name].items[i] in d[a.name].items;
      }
    }
  }

  lemma {:induction false} ValidIsSuiting(h: Host, v: Value, a: Attribute)
    ensures ValidValue(h, v, a) <==> Suits(h, v, a)
    decreases a, 2
  {
    if a.kind == "complex" && v.Object? {
      ValidIsMeeting(h, v.fields, a.subAttributes);
    }
  }

  lemma ValidExtensionsMeet(h: Host, d: Document, extensions: seq<Extension>)
    ensures ValidExtensions(h, d, extensions) <==> ExtensionsMeet(h, d, extensions)
  {
    forall i | 0 <= i < |extensions| && extensions[i].schema in d && d[extensions[i].schema].Object?
      ensures ValidExtension(h, d[extensions[i].schema].fields, extensions[i].attributes) <==>
        && Declared(d[extensions[i].schema].fields, extensions[i].attributes)
        && Meets(h, d[extensions[i].schema].fields, extensions[i].attributes)
    {
      ValidIsMeeting(h, d[extensions[i].schema].fields, extensions[i].attributes);
    }
    hide ValidExtension, Meets, Declared;
    if ValidExtensions(h, d, extensions) {
      forall e | e in extensions && e.schema in d && d[e.schema].Object?
        ensures Declared(d[e.schema].fields, e.attributes) && Meets(h, d[e.schema].fields, e.attributes)
      {
        var i :| 0 <= i < |extensions| && extensions[i] == e;
      }
    }
    if ExtensionsMeet(h, d, extensions) {
      assert forall i | 0 <= i < |extensions| :: extensions[i] in extensions;
    }
  }

  // ---------- what is read off a document ----------

  /** The text at an attribute, or at a sub-attribute behind a dot. */
  lemma PathsRead(d: Document, name: string, sub: string)
    requires '.' !in name && '.' !in sub
    ensures StringPath(d, name) ==
      if name !in d then Missing else if d[name].Text? && d[name].text != "" then Found(d[name].text) else NotText
    ensures StringPath(d, name + "." + sub) ==
      if name !in d then Missing
      else if !d[name].Object? then NotText
      else if sub !in d[name].fields then Missing
      else if d[name].fields[sub].Text? && d[name].fields[sub].text != "" then Found(d[name].fields[sub].text)
      else NotText
  {
    TopLevelPath(d, name);
    TwoParts(name, sub);
    assert [name, sub][1..] == [sub] && [sub][1..] == [];
    hide Split;
    assert Object(d).fields == d;
    if name in d && d[name].Object? && sub in d[name].fields {
      var v := d[name].fields[sub];
      assert TextAt(v, []) == if v.Text? && v.text != "" then Found(v.text) else NotText;
      assert TextAt(d[name], [sub]) == TextAt(v, []);
    }
    assert TextAt(Object(d), [name, sub]) == if name in d then TextAt(d[name], [sub]) else Missing;
  }

  lemma {:induction false} TwoParts(name: string, sub: string)
    requires '.' !in name && '.' !in sub
    ensures Split(name + "." + sub, '.') == [name, sub]
  {
    var all := name + "." + sub;
    if name == "" {
      assert all[1..] == sub;
      WholePart(sub);
    } else {
      assert all[1..] == name[1..] + "." + sub;
      TwoParts(name[1..], sub);
      assert [name[0]] + name[1..] == name;
    }
  }

  /** The external ID is readable: missing, or a text within the limit. */
  predicate HasReadableId(d: Document) {
    "externalId" in d ==> d["externalId"].Text? && ValidString(d["externalId"].text, 65536)
  }

  function IdOf(d: Document): string {
    if "externalId" in d && d["externalId"].Text? then d["externalId"].text else ""
  }

  /** One index for each filter attribute that has a text, in their order; exact for the external ID, unique for the
      unique attribute. */
  ghost predicate AreIndexes(h: Host, def: Definition, d: Document, names: seq<string>, indexes: seq<IndexKey>)
    decreases |names|
  {
    if names == [] then indexes == []
    else
      match StringPath(d, names[0])
      case Missing => AreIndexes(h, def, d, names[1..], indexes)
      case Found(text) =>
        && indexes != [] && indexes[0].name == names[0] && indexes[0].value == text
        && (indexes[0].caseExact <==> h.fold(names[0]) == h.fold("externalId"))
        && (indexes[0].unique <==> h.fold(names[0]) == h.fold(def.uniqueAttribute))
        && AreIndexes(h, def, d, names[1..], indexes[1..])
      case NotText => false
  }

  lemma {:induction false} IndexesAre(h: Host, def: Definition, d: Document, names: seq<string>)
    ensures Indexes(h, def, d, names).Some? <==> forall n | n in names :: !StringPath(d, n).NotText?
    ensures Indexes(h, def, d, names).Some? ==> AreIndexes(h, def, d, names, Indexes(h, def, d, names).value)
    decreases |names|
  {
    hide StringPath;
    if names != [] {
      var rest := names[1..];
      IndexesAre(h, def, d, rest);
      assert forall n :: n in names <==> n == names[0] || n in rest;
      if Indexes(h, def, d, names).Some? && StringPath(d, names[0]).Found? {
        var all := Indexes(h, def, d, names).value;
        assert all[1..] == Indexes(h, def, d, rest).value;
      }
    }
  }

  // ---------- acceptance ----------

  /** A document is accepted exactly when it has no password, its schemas and its resource checks are settled, and
      the result meets its schema and can be read; then that result is what is stored. */
  lemma AcceptsExactly(h: Host, def: Definition, d: Document)
    ensures match SettledForm(h, def, d)
      case None => Prepare(h, def, d) == None
      case Some(k) =>
        && (Prepare(h, def, d).Some? <==>
              && Meets(h, k, def.attributes) && ExtensionsMeet(h, k, def.extensions)
              && HasReadableId(k) && forall n | n in def.filterAttributes :: !StringPath(k, n).NotText?)
        && (Prepare(h, def, d).Some? ==>
              && Prepare(h, def, d).value.document == k && Prepare(h, def, d).value.externalId == IdOf(k)
              && AreIndexes(h, def, k, def.filterAttributes, Prepare(h, def, d).value.indexes))
  {
    hide Normalized, SchemaSet, Checked, StringPath, ValidString, AreIndexes;
    if SettledForm(h, def, d).Some? {
      var k := SettledForm(h, def, d).value;
      ValidIsMeeting(h, k, def.attributes);
      ValidExtensionsMeet(h, k, def.extensions);
      IndexesAre(h, def, k, def.filterAttributes);
      hide ValidValues, ValidExtensions, Meets, ExtensionsMeet, Indexes;
    }
  }

  /** Normalized, with its schemas respelled and the checks of its resource type passed. */
  function SettledForm(h: Host, def: Definition, d: Document): Option<Document> {
    if "password" in d then None
    else
      match SchemaSet(h, def, Normalized(def, d))
      case None => None
      case Some(settled) => Checked(h, def, settled)
  }

  // ---------- the schemas of an accepted document ----------

  /** The entry names the resource's own schema. */
  predicate NamesBase(h: Host, def: Definition, v: Value) { v.Text? && h.fold(v.text) == h.fold(def.schema) }

  /** The entry names some extension. */
  predicate NamesExtension(h: Host, def: Definition, v: Value) {
    v.Text? && exists i | 0 <= i < |def.extensions| :: h.lower(def.extensions[i].schema) == h.lower(v.text)
  }

  /** The entry in its canonical spelling: the resource's schema, or that of an extension it names. */
  predicate Canonical(h: Host, def: Definition, v: Value, w: Value) {
    if NamesBase(h, def, v) then w == Value.Text(def.schema)
    else v.Text? && w.Text? && exists i | 0 <= i < |def.extensions| ::
      def.extensions[i].schema == w.text && h.lower(w.text) == h.lower(v.text)
  }

  /** Extension schemas are told apart from the schemas attribute. */
  predicate ApartFromSchemas(h: Host, def: Definition) {
    forall i | 0 <= i < |def.extensions| ::
      def.extensions[i].schema != "schemas" && h.fold(def.extensions[i].schema) != h.fold("schemas")
  }

  /** What accepted schemas are, for any definition: non-empty texts that differ once lower-cased, each naming the
      resource's schema or an extension; the resource's own and every required extension's among them; no more than
      there can be; and each respelled. */
  ghost predicate SchemasAccepted(h: Host, def: Definition, values: seq<Value>, final: seq<Value>, out: Document) {
    && 0 < |values| <= |def.extensions| + 1 && |final| == |values|
    && (forall j | 0 <= j < |values| :: values[j].Text? && values[j].text != "")
    && (forall j | 0 <= j < |values| :: NamesBase(h, def, values[j]) || NamesExtension(h, def, values[j]))
    && (forall i, j | 0 <= i < j < |values| && values[i].Text? && values[j].Text? ::
          h.lower(values[i].text) != h.lower(values[j].text))
    && (exists j | 0 <= j < |values| :: NamesBase(h, def, values[j]))
    && (forall i | 0 <= i < |def.extensions| && def.extensions[i].required ::
          exists j | 0 <= j < |values| && values[j].Text? ::
            h.lower(values[j].text) == h.lower(def.extensions[i].schema))
    && (forall j | 0 <= j < |values| && j < |final| :: Canonical(h, def, values[j], final[j]))
    && "schemas" in out && out["schemas"] == Array(final)
  }

  lemma SchemaSetAccepts(h: Host, def: Definition, d: Document)
    requires ApartFromSchemas(h, def) && SchemaSet(h, def, d).Some?
    ensures exists final :: SchemasAccepted(h, def, SchemaItems(d), final, SchemaSet(h, def, d).value)
  {
    var final := LoopAccepts(h, def, d, SchemaItems(d), 0, {}, false);
    LoopIsAccepted(h, def, SchemaItems(d), final, SchemaSet(h, def, d).value);
  }

  /** What the pass from index on has found when it ends well. */
  ghost predicate PassedFrom(h: Host, def: Definition, values: seq<Value>, index: nat, seen: set<string>, base: bool,
                             final: seq<Value>, out: Document) {
    && index <= |values| && |final| == |values|
    && (forall j | index <= j < |values| :: values[j].Text? && values[j].text != "" && h.lower(values[j].text) !in seen)
    && (forall j | index <= j < |values| :: NamesBase(h, def, values[j]) || NamesExtension(h, def, values[j]))
    && (forall i, j | index <= i < j < |values| && values[i].Text? && values[j].Text? ::
          h.lower(values[i].text) != h.lower(values[j].text))
    && (base || exists j | index <= j < |values| :: NamesBase(h, def, values[j]))
    && (forall i | 0 <= i < |def.extensions| && def.extensions[i].required ::
          h.lower(def.extensions[i].schema) in seen
          || exists j | index <= j < |values| && values[j].Text? ::
            h.lower(values[j].text) == h.lower(def.extensions[i].schema))
    && (forall j | 0 <= j < |values| && j < |final| ::
          if j < index then final[j] == values[j] else Canonical(h, def, values[j], final[j]))
    && "schemas" in out && out["schemas"] == Array(final)
  }

  lemma LoopIsAccepted(h: Host, def: Definition, values: seq<Value>, final: seq<Value>, out: Document)
    requires PassedFrom(h, def, values, 0, {}, false, final, out) && 0 < |values| <= |def.extensions| + 1
    ensures SchemasAccepted(h, def, values, final, out)
  {
    hide NamesBase, NamesExtension, Canonical;
  }

  lemma {:induction false} LoopAccepts(h: Host, def: Definition, d: Document, values: seq<Value>, index: nat,
                                       seen: set<string>, base: bool) returns (final: seq<Value>)
    requires ApartFromSchemas(h, def) && index <= |values| && "schemas" in d && d["schemas"] == Array(values)
    requires SchemaLoop(h, def, d, values, index, seen, base).Some?
    ensures PassedFrom(h, def, values, index, seen, base, final, SchemaLoop(h, def, d, values, index, seen, base).value)
    decreases |values| - index
  {
    hide AdmitExtension, PassedFrom, ApartFromSchemas;
    if index < |values| {
      var entry := values[index].text;
      var known := seen + {h.lower(entry)};
      if h.fold(entry) == h.fold(def.schema) {
        var next := values[index := Value.Text(def.schema)];
        final := LoopAccepts(h, def, Respell(d, next), next, index + 1, known, true);
        OnePassedMore(h, def, values, index, seen, base, Value.Text(def.schema), final,
                      SchemaLoop(h, def, d, values, index, seen, base).value);
      } else {
        var e := FindExtension(h, def.extensions, h.lower(entry)).value;
        var next := values[index := Value.Text(e.schema)];
        AdmittedKeepsSchemas(h, def, Respell(d, next), e);
        final := LoopAccepts(h, def, AdmitExtension(h, Respell(d, next), e).value, next, index + 1, known, base);
        FoundIsNamed(h, def, e, values[index]);
        OnePassedMore(h, def, values, index, seen, base, Value.Text(e.schema), final,
                      SchemaLoop(h, def, d, values, index, seen, base).value);
      }
    } else {
      final := values;
      PassedToTheEnd(h, def, d, values, index, seen, base);
    }
  }

  lemma PassedToTheEnd(h: Host, def: Definition, d: Document, values: seq<Value>, index: nat, seen: set<string>,
                       base: bool)
    requires index == |values| && base && RequiredPresent(h, def.extensions, seen)
    requires "schemas" in d && d["schemas"] == Array(values)
    ensures PassedFrom(h, def, values, index, seen, base, values, d)
  {
  }

  lemma FoundIsNamed(h: Host, def: Definition, e: Extension, v: Value)
    requires v.Text? && FindExtension(h, def.extensions, h.lower(v.text)) == Some(e)
    ensures NamesExtension(h, def, v)
    ensures exists i | 0 <= i < |def.extensions| ::
      def.extensions[i].schema == e.schema && h.lower(e.schema) == h.lower(v.text)
  {
  }

  lemma AdmittedKeepsSchemas(h: Host, def: Definition, d: Document, e: Extension)
    requires ApartFromSchemas(h, def) && e in def.extensions && "schemas" in d && AdmitExtension(h, d, e).Some?
    ensures "schemas" in AdmitExtension(h, d, e).value && AdmitExtension(h, d, e).value["schemas"] == d["schemas"]
  {
    var i :| 0 <= i < |def.extensions| && def.extensions[i] == e;
    assert e.schema != "schemas" && h.fold(e.schema) != h.fold("schemas");
  }

  lemma OnePassedMore(h: Host, def: Definition, values: seq<Value>, index: nat, seen: set<string>, base: bool,
                      spelled: Value, final: seq<Value>, out: Document)
    requires index < |values| && values[index].Text? && values[index].text != "" && h.lower(values[index].text) !in seen
    requires Canonical(h, def, values[index], spelled)
    requires NamesBase(h, def, values[index]) || NamesExtension(h, def, values[index])
    requires PassedFrom(h, def, values[index := spelled], index + 1, seen + {h.lower(values[index].text)},
                        base || NamesBase(h, def, values[index]), final, out)
    ensures PassedFrom(h, def, values, index, seen, base, final, out)
  {
    hide NamesBase, NamesExtension, Canonical;
    var next := values[index := spelled];
    assert forall j | 0 <= j < |values| && j != index :: next[j] == values[j];
    assert final[index] == next[index] == spelled;
    forall i, j | index <= i < j < |values| && values[i].Text? && values[j].Text?
      ensures h.lower(values[i].text) != h.lower(values[j].text)
    {
      if i > index {
        assert next[i] == values[i] && next[j] == values[j];
      } else {
        assert next[j] == values[j];
      }
    }
  }

  // ---------- claiming an extension's object ----------

  /** k holds the object of the extension: under its own URI, or, when that is missing, under one that folds to it. */
  predicate HoldsExtension(h: Host, d: Document, e: Extension, k: string) {
    k in d && (k == e.schema || (e.schema !in d && h.fold(k) == h.fold(e.schema)))
  }

  /** The value under k is an object that the extension's own validation accepts as these fields. */
  predicate AcceptedAs(d: Document, e: Extension, k: string, fields: Document) {
    && k in d && d[k].Object?
    && if e.validate.None? then fields == d[k].fields else e.validate.value(d[k].fields) == Some(fields)
  }

  /** The object of an extension moves to the extension's URI, as validation leaves it, and nothing else changes;
      without one, or without an acceptable one, the document is refused. */
  lemma ExtensionsAreClaimed(h: Host, d: Document, e: Extension)
    requires forall s: set<string> | s != {} :: h.pick(s) in s
    ensures match AdmitExtension(h, d, e)
      case Some(out) =>
        exists k | k in d && HoldsExtension(h, d, e, k) ::
          && e.schema in out && out[e.schema].Object? && AcceptedAs(d, e, k, out[e.schema].fields)
          && out.Keys == (d.Keys - {k}) + {e.schema}
          && forall j | j in out && j != e.schema :: j in d && out[j] == d[j]
      case None =>
        || (forall k | k in d :: !HoldsExtension(h, d, e, k))
        || exists k | k in d && HoldsExtension(h, d, e, k) :: forall fields :: !AcceptedAs(d, e, k, fields)
  {
    if e.schema in d {
      assert HoldsExtension(h, d, e, e.schema);
      ClaimedAt(h, d, e, e.schema);
    } else {
      var candidates := set k | k in d && h.fold(k) == h.fold(e.schema);
      if candidates != {} {
        var key := h.pick(candidates);
        assert key in candidates && HoldsExtension(h, d, e, key);
        ClaimedAt(h, d, e, key);
      } else {
        forall k | k in d
          ensures !HoldsExtension(h, d, e, k)
        {
          assert k !in candidates;
        }
      }
    }
  }

  lemma ClaimedAt(h: Host, d: Document, e: Extension, k: string)
    requires HoldsExtension(h, d, e, k)
    requires e.schema !in d ==> k == h.pick(set j | j in d && h.fold(j) == h.fold(e.schema))
    ensures match AdmitExtension(h, d, e)
      case Some(out) =>
        && e.schema in out && out[e.schema].Object? && AcceptedAs(d, e, k, out[e.schema].fields)
        && out.Keys == (d.Keys - {k}) + {e.schema}
        && forall j | j in out && j != e.schema :: j in d && out[j] == d[j]
      case None => forall fields :: !AcceptedAs(d, e, k, fields)
  {
    var candidates := set j | j in d && h.fold(j) == h.fold(e.schema);
    assert e.schema !in d ==> k in candidates;
    assert ClaimExtension(h, d, e.schema) == if e.schema in d then d else (d - {k})[e.schema := d[k]];
  }
}
