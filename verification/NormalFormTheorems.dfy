/** When preparing a prepared User or Group gives it back, and so when stored resources can be read. */
module NormalFormTheorems {
  import opened Values
  import opened Records
  import opened NormalForm
  import opened NormalFormFacts
  import Schema

  /** What the libraries are relied on for: a map iteration finds a key if there is one, preparing a
      name twice is preparing it once, and the names of the standard schemas are told apart. */
  ghost predicate Sensible(h: Host) {
    && (forall s: set<string> | s != {} :: h.pick(s) in s)
    && (forall s | h.prepare(s).Some? :: h.prepare(h.prepare(s).value) == h.prepare(s))
    && h.lower(USER_SCHEMA) != h.lower(ENTERPRISE_SCHEMA) && h.fold(USER_SCHEMA) != h.fold(ENTERPRISE_SCHEMA)
    && h.fold("schemas") != h.fold(ENTERPRISE_SCHEMA) && h.fold("userName") != h.fold(ENTERPRISE_SCHEMA)
  }

  // ---------- the standard attributes ----------

  /** No attribute is called as the schemas, or as the enterprise schema, and the user name is plain text. */
  predicate Usual(attributes: seq<Attribute>) {
    forall a | a in attributes ::
      && a.name != "schemas" && a.name != ENTERPRISE_SCHEMA
      && (a.name == "userName" ==> a.mutability != "readOnly" && a.kind != "complex")
  }

  lemma {:induction false} TextsAre(names: seq<string>)
    ensures forall a | a in Texts(names) :: a.name in names && a == Simple(a.name, "string")
  {
    if names != [] {
      TextsAre(names[1..]);
    }
  }

  lemma UsualParts(a: seq<Attribute>, b: seq<Attribute>)
    requires Usual(a) && Usual(b)
    ensures Usual(a + b)
  {
  }

  lemma UsualTexts(names: seq<string>)
    requires "schemas" !in names && ENTERPRISE_SCHEMA !in names
    ensures Usual(Texts(names))
  {
    TextsAre(names);
  }

  /** What the proofs use of the standard definitions. */
  ghost predicate WellKnown(def: Definition) {
    && Usual(def.attributes) && |def.extensions| <= 1
    && forall i | 0 <= i < |def.extensions| ::
         def.extensions[i] == Extension(ENTERPRISE_SCHEMA, EnterpriseAttributes(), false, Some(ValidateEnterprise))
  }

  lemma UserIsWellKnown()
    ensures WellKnown(UserDefinition())
  {
    UserAttributesAreUsual();
    hide Usual, UserAttributes, EnterpriseAttributes;
  }

  lemma UserAttributesAreUsual()
    ensures Usual(UserAttributes())
  {
    TextAttributesAreUsual();
    IdentityIsUsual();
    PluralsAreUsual();
    OthersAreUsual();
    hide Usual, TextAttributes, IdentityAttributes, PluralAttributes, OtherAttributes;
    UsualParts(IdentityAttributes(), TextAttributes());
    UsualParts(IdentityAttributes() + TextAttributes(), PluralAttributes());
    UsualParts(IdentityAttributes() + TextAttributes() + PluralAttributes(), OtherAttributes());
  }

  lemma TextAttributesAreUsual()
    ensures Usual(TextAttributes())
  {
    UsualTexts(["displayName", "nickName", "title", "userType", "preferredLanguage", "locale", "timezone"]);
  }

  lemma IdentityIsUsual()
    ensures Usual(IdentityAttributes())
  {
    hide Texts;
  }

  lemma PluralsAreUsual()
    ensures Usual(PluralAttributes())
  {
    hide Simple, ReadOnly;
  }

  lemma OthersAreUsual()
    ensures Usual(OtherAttributes())
  {
    hide Texts, ReadOnly;
  }

  lemma GroupIsWellKnown()
    ensures WellKnown(GroupDefinition())
  {
  }

  // ---------- quiet documents ----------

  /** Nothing left to tidy or to balance. */
  ghost predicate Quiet(v: Value) { !Unassigned(v) && Tidy(v) == v && Balance(v) == v }

  /** What normalization establishes and the later steps keep. */
  ghost predicate Calm(def: Definition, d: Document) {
    && "id" !in d && "meta" !in d && "groups" !in d && "password" !in d
    && Stripped(d, def.attributes)
    && forall k | k in d && k != "schemas" :: Quiet(d[k])
  }

  /** The extension object carries nothing read-only. */
  ghost predicate ExtensionStripped(def: Definition, d: Document) {
    forall e | e in def.extensions && e.schema in d && d[e.schema].Object? :: Stripped(d[e.schema].fields, e.attributes)
  }

  lemma TidyDocumentIsThinner(d: Document)
    ensures Thinner(Object(TidyDocument(d)), Object(d))
  {
    var tidy := TidyDocument(d);
    assert Object(tidy).fields == tidy && Object(d).fields == d;
    forall k | k in tidy
      ensures k in d && Thinner(tidy[k], d[k])
    {
      TidyIsThinner(d[k]);
    }
  }

  lemma StripExtensionsIs(def: Definition, d: Document)
    requires WellKnown(def)
    ensures var s := StripExtensions(d, def.extensions);
      && Thinner(Object(s), Object(d)) && ExtensionStripped(def, s)
      && (ExtensionStripped(def, d) ==> s == d)
  {
    hide Usual, EnterpriseAttributes, Strip, Stripped;
    if def.extensions != [] {
      var e := def.extensions[0];
      assert def.extensions[1..] == [];
      if e.schema in d && d[e.schema].Object? {
        var fields := d[e.schema].fields;
        StripIsThinner(fields, e.attributes);
        StripStrips(fields, e.attributes);
        OneFieldThinner(d, e.schema, Object(Strip(fields, e.attributes)));
        if ExtensionStripped(def, d) {
          assert e in def.extensions;
          StrippedStays(fields, e.attributes);
        }
      }
    }
  }

  lemma ThinnerExtension(def: Definition, d: Document, e: Document)
    requires Thinner(Object(d), Object(e)) && ExtensionStripped(def, e)
    ensures ExtensionStripped(def, d)
  {
    hide Stripped;
    assert Object(d).fields == d && Object(e).fields == e;
    forall x | x in def.extensions && x.schema in d && d[x.schema].Object?
      ensures Stripped(d[x.schema].fields, x.attributes)
    {
      ThinnerObject(d[x.schema], e[x.schema]);
      ThinnerIsStripped(d[x.schema].fields, e[x.schema].fields, x.attributes);
    }
  }

  /** The stages of normalization, each thinner than the one before. */
  lemma NormalizedIsCalm(def: Definition, d: Document)
    requires WellKnown(def) && "password" !in d
    ensures Calm(def, Normalized(def, d)) && ExtensionStripped(def, Normalized(def, d))
  {
    var a := d - {"id", "meta", "groups"};
    var b := Strip(a, def.attributes);
    var c := StripExtensions(b, def.extensions);
    var t := TidyDocument(c);
    var n := Balance(Object(t)).fields;
    FewerFieldsThinner(d, {"id", "meta", "groups"});
    StripIsThinner(a, def.attributes);
    StripStrips(a, def.attributes);
    StripExtensionsIs(def, b);
    TidyDocumentIsThinner(c);
    BalanceIsThinner(Object(t));
    assert Object(n) == Balance(Object(t));
    hide Stripped, Strip, WellKnown, Thinner, StripExtensions, ExtensionStripped, Balance;
    ThinnerIsTransitive(Object(n), Object(t), Object(c));
    ThinnerExtension(def, n, c);
    ThinnerIsTransitive(Object(n), Object(c), Object(b));
    ThinnerIsStripped(n, b, def.attributes);
    ThinnerIsTransitive(Object(n), Object(b), Object(a));
    ThinnerNames(n, a);
    BalancedTidyIsQuiet(c);
  }

  lemma ThinnerNames(d: Document, e: Document)
    requires Thinner(Object(d), Object(e))
    ensures d.Keys <= e.Keys
  {
    assert Object(d).fields == d && Object(e).fields == e;
  }

  lemma BalancedTidyIsQuiet(c: Document)
    ensures Balance(Object(TidyDocument(c))).Object?
    ensures forall k | k in Balance(Object(TidyDocument(c))).fields && k != "schemas" ::
      Quiet(Balance(Object(TidyDocument(c))).fields[k])
  {
    var t := TidyDocument(c);
    var n := Balance(Object(t)).fields;
    forall k | k in n && k != "schemas"
      ensures Quiet(n[k])
    {
      assert t[k] == Tidy(c[k]) && n[k] == Balance(t[k]);
      TidyIsTidy(c[k]);
      BalanceStaysTidy(t[k]);
      BalanceIsBalanced(t[k]);
    }
  }

  lemma CalmStays(def: Definition, d: Document)
    requires WellKnown(def) && Calm(def, d) && ExtensionStripped(def, d)
    requires "schemas" in d ==> Balance(d["schemas"]) == d["schemas"]
    ensures Normalized(def, d) == d
  {
    assert d - {"id", "meta", "groups"} == d;
    StrippedStays(d, def.attributes);
    StripExtensionsIs(def, d);
    hide Stripped, Strip;
    assert TidyDocument(d) == d by {
      forall k | k in d && k != "schemas"
        ensures Quiet(d[k])
      {
      }
    }
    BalanceFields(d);
  }

  // ---------- respelling the schemas ----------

  lemma {:induction false} StrippedElsewhere(d: Document, e: Document, attributes: seq<Attribute>)
    requires Stripped(d, attributes)
    requires forall a | a in attributes && a.name in e :: a.name in d && e[a.name] == d[a.name]
    ensures Stripped(e, attributes)
  {
    if attributes != [] {
      assert attributes[0] in attributes;
      StrippedElsewhere(d, e, attributes[1..]);
    }
  }

  lemma QuietFields(d: Document)
    ensures Quiet(Object(d)) <==> forall k | k in d :: Quiet(d[k])
  {
    TidyFields(d);
    BalanceFields(d);
  }

  lemma EnterpriseIsQuiet(d: Document)
    requires Quiet(Object(d)) && ValidateEnterprise(d).Some?
    ensures var e := ValidateEnterprise(d).value;
      Quiet(Object(e)) && Stripped(e, EnterpriseAttributes()) && ValidateEnterprise(e) == Some(e)
  {
    hide Quiet, OptionalString, StringObject, EnterpriseAttributes, Stripped;
    var e := ValidateEnterprise(d).value;
    QuietFields(d);
    QuietFields(e);
    if "manager" in d {
      var fields := d["manager"].fields;
      QuietFields(fields);
      QuietFields(fields - {"displayName"});
      assert fields - {"displayName"} - {"displayName"} == fields - {"displayName"};
      assert e["manager" := e["manager"]] == e;
      assert forall n | n in ["employeeNumber", "costCenter", "organization", "division", "department"] ::
          n != "manager" && OptionalString(e, n, MAXIMUM_STRING_BYTES)
            == OptionalString(d, n, MAXIMUM_STRING_BYTES) by {
        OptionalElsewhere(d, e);
      }
    }
    EnterpriseStripped(e);
  }

  lemma OptionalElsewhere(d: Document, e: Document)
    requires forall k | k != "manager" :: (k in d <==> k in e) && (k in d ==> d[k] == e[k])
    ensures forall n, m | n != "manager" :: OptionalString(e, n, m) == OptionalString(d, n, m)
  {
  }

  lemma StrippedCons(d: Document, a: Attribute, rest: seq<Attribute>)
    requires a.mutability == "readOnly" ==> a.name !in d
    requires a.kind == "complex" && a.name in d ==> StrippedValue(d[a.name], a.subAttributes)
    requires Stripped(d, rest)
    ensures Stripped(d, [a] + rest)
  {
    assert ([a] + rest)[1..] == rest;
  }

  lemma EnterpriseStripped(e: Document)
    requires "manager" in e ==> e["manager"].Object? && "displayName" !in e["manager"].fields
    ensures Stripped(e, EnterpriseAttributes())
  {
    var value, ref, name := Simple("value", "string"), Simple("$ref", "reference"), ReadOnly("displayName");
    var manager := Schema.Attribute("manager", "complex", false, false, false, "readWrite", "default",
                                    [value, ref, name]);
    if "manager" in e {
      var fields := e["manager"].fields;
      StrippedCons(fields, name, []);
      StrippedCons(fields, ref, [name] + []);
      StrippedCons(fields, value, [ref] + ([name] + []));
      assert [value] + ([ref] + ([name] + [])) == [value, ref, name];
    }
    hide Texts;
    StrippedCons(e, manager, []);
    StrippedTexts(e, ["employeeNumber", "costCenter", "organization", "division", "department"], [manager] + []);
    assert [manager] + [] == [manager];
  }

  lemma {:induction false} StrippedTexts(d: Document, names: seq<string>, rest: seq<Attribute>)
    requires Stripped(d, rest)
    ensures Stripped(d, Texts(names) + rest)
  {
    hide Stripped, StrippedValue;
    if names == [] {
      assert Texts(names) + rest == rest;
    } else {
      StrippedTexts(d, names[1..], rest);
      StrippedCons(d, Simple(names[0], "string"), Texts(names[1..]) + rest);
      assert Texts(names) + rest == [Simple(names[0], "string")] + (Texts(names[1..]) + rest);
    }
  }

  // ---------- one pass over the schemas ----------

  /** The enterprise object has been validated, and validating it again changes nothing. */
  ghost predicate Admitted(d: Document) {
    ENTERPRISE_SCHEMA in d && d[ENTERPRISE_SCHEMA].Object?
    && ValidateEnterprise(d[ENTERPRISE_SCHEMA].fields) == Some(d[ENTERPRISE_SCHEMA].fields)
  }

  /** Attributes that neither are the schemas nor fold to the extension are the same in both. */
  ghost predicate SameElsewhere(h: Host, d: Document, e: Document) {
    forall k | k != "schemas" && h.fold(k) != h.fold(ENTERPRISE_SCHEMA) ::
      (k in d <==> k in e) && (k in d ==> d[k] == e[k])
  }

  ghost predicate Ready(def: Definition, d: Document, values: seq<Value>) {
    Calm(def, d) && ExtensionStripped(def, d) && "schemas" in d && d["schemas"] == Array(values)
  }

  lemma RespellStays(h: Host, def: Definition, d: Document, values: seq<Value>, next: seq<Value>)
    requires WellKnown(def) && Sensible(h) && Ready(def, d, values)
    ensures Ready(def, Respell(d, next), next) && SameElsewhere(h, d, Respell(d, next))
    ensures Admitted(d) ==> Admitted(Respell(d, next))
  {
    hide Quiet, Stripped, Sensible, EnterpriseAttributes, ValidateEnterprise;
    var e := Respell(d, next);
    StrippedElsewhere(d, e, def.attributes);
  }

  lemma ClaimMoves(h: Host, d: Document)
    requires Sensible(h)
    ensures var e := ClaimExtension(h, d, ENTERPRISE_SCHEMA);
      && SameElsewhere(h, d, e) && ("schemas" in e <==> "schemas" in d)
        && ("schemas" in d ==> e["schemas"] == d["schemas"])
      && (forall k | k in e && k != ENTERPRISE_SCHEMA :: k in d && e[k] == d[k])
      && (ENTERPRISE_SCHEMA in e ==> exists k | k in d && k != "schemas" :: e[ENTERPRISE_SCHEMA] == d[k])
  {
    if ENTERPRISE_SCHEMA !in d {
      var candidates := set k | k in d && h.fold(k) == h.fold(ENTERPRISE_SCHEMA);
      if candidates != {} {
        assert h.pick(candidates) in candidates;
      }
    }
  }

  lemma ClaimStays(h: Host, def: Definition, d: Document, values: seq<Value>)
    requires WellKnown(def) && Sensible(h) && Ready(def, d, values)
    ensures var e := ClaimExtension(h, d, ENTERPRISE_SCHEMA);
      && Calm(def, e) && "schemas" in e && e["schemas"] == Array(values) && SameElsewhere(h, d, e)
  {
    ClaimMoves(h, d);
    hide Quiet, Stripped, EnterpriseAttributes, ClaimExtension, Sensible, SameElsewhere;
    StrippedElsewhere(d, ClaimExtension(h, d, ENTERPRISE_SCHEMA), def.attributes);
  }

  lemma AdmitStays(h: Host, def: Definition, d: Document, values: seq<Value>, e: Extension)
    requires WellKnown(def) && Sensible(h) && Ready(def, d, values)
    requires e == Extension(ENTERPRISE_SCHEMA, EnterpriseAttributes(), false, Some(ValidateEnterprise))
    requires AdmitExtension(h, d, e).Some?
    ensures var a := AdmitExtension(h, d, e).value;
      Ready(def, a, values) && SameElsewhere(h, d, a) && Admitted(a)
  {
    hide Quiet, Stripped, EnterpriseAttributes, ValidateEnterprise, ClaimExtension;
    ClaimStays(h, def, d, values);
    var claimed := ClaimExtension(h, d, ENTERPRISE_SCHEMA);
    var a := AdmitExtension(h, d, e).value;
    EnterpriseIsQuiet(claimed[ENTERPRISE_SCHEMA].fields);
    StrippedElsewhere(claimed, a, def.attributes);
  }

  function Respelled(h: Host, def: Definition, v: Value): Value {
    if v.Text? && h.fold(v.text) == h.fold(def.schema) then Value.Text(def.schema) else Value.Text(ENTERPRISE_SCHEMA)
  }

  predicate IsBase(h: Host, def: Definition, v: Value) { v.Text? && h.fold(v.text) == h.fold(def.schema) }

  /** Entries still to be read are new texts, and no two of them agree up to case. */
  ghost predicate Fresh(h: Host, values: seq<Value>, index: nat, seen: set<string>) {
    && (forall j | index <= j < |values| :: values[j].Text? && values[j].text != "" && h.lower(values[j].text) !in seen)
    && (forall i, j | index <= i < j < |values| :: h.lower(values[i].text) != h.lower(values[j].text))
  }

  ghost predicate OthersAdmitted(h: Host, def: Definition, values: seq<Value>, index: nat, out: Document) {
    forall j | index <= j < |values| && !IsBase(h, def, values[j]) ::
      Admitted(out) && values[j].Text? && h.lower(values[j].text) == h.lower(ENTERPRISE_SCHEMA)
  }

  predicate HasBase(h: Host, def: Definition, values: seq<Value>, index: nat) {
    exists j | index <= j < |values| :: IsBase(h, def, values[j])
  }

  /** The entries from index on in their canonical spelling. */
  function RespelledFrom(h: Host, def: Definition, values: seq<Value>, index: nat): seq<Value> {
    seq(|values|, j requires 0 <= j < |values| => if j < index then values[j] else Respelled(h, def, values[j]))
  }

  /** What reading the entries from index on makes of a document. */
  ghost predicate Read(h: Host, def: Definition, d: Document, values: seq<Value>, index: nat, base: bool,
                       out: Document) {
    && SameElsewhere(h, d, out) && (Admitted(d) ==> Admitted(out))
    && OthersAdmitted(h, def, values, index, out)
    && (base || HasBase(h, def, values, index))
    && Ready(def, out, RespelledFrom(h, def, values, index))
  }

  lemma {:induction false} LoopReads(h: Host, def: Definition, d: Document, values: seq<Value>, index: nat,
                                     seen: set<string>, base: bool)
    requires WellKnown(def) && Sensible(h) && Ready(def, d, values) && index <= |values|
    requires SchemaLoop(h, def, d, values, index, seen, base).Some?
    ensures Fresh(h, values, index, seen)
    ensures Read(h, def, d, values, index, base, SchemaLoop(h, def, d, values, index, seen, base).value)
    decreases |values| - index
  {
    hide Ready, Admitted, Sensible, AdmitExtension, RequiredPresent, SameElsewhere, Fresh, Read, Respell, WellKnown;
    if index < |values| {
      var entry := values[index].text;
      var known := seen + {h.lower(entry)};
      var next := values[index := Respelled(h, def, values[index])];
      RespellStays(h, def, d, values, next);
      if h.fold(entry) == h.fold(def.schema) {
        LoopReads(h, def, Respell(d, next), next, index + 1, known, true);
        ReadStep(h, def, d, values, index, base, Respell(d, next),
                 SchemaLoop(h, def, d, values, index, seen, base).value);
      } else {
        var e := FindExtension(h, def.extensions, h.lower(entry)).value;
        OnlyExtension(def, e);
        var respelled := Respell(d, next);
        AdmitStays(h, def, respelled, next, e);
        var admitted := AdmitExtension(h, respelled, e).value;
        LoopReads(h, def, admitted, next, index + 1, known, base);
        SameElsewhereChains(h, d, respelled, admitted);
        ReadStep(h, def, d, values, index, base, admitted, SchemaLoop(h, def, d, values, index, seen, base).value);
      }
      FreshStep(h, values, index, seen, Respelled(h, def, values[index]));
    } else {
      ReadNothing(h, def, d, values, index, base);
      assert Fresh(h, values, index, seen) by {
        FreshEnd(h, values, index, seen);
      }
    }
  }

  lemma OnlyExtension(def: Definition, e: Extension)
    requires WellKnown(def) && e in def.extensions
    ensures e == Extension(ENTERPRISE_SCHEMA, EnterpriseAttributes(), false, Some(ValidateEnterprise))
  {
  }

  lemma SameElsewhereChains(h: Host, d: Document, e: Document, f: Document)
    requires SameElsewhere(h, d, e) && SameElsewhere(h, e, f)
    ensures SameElsewhere(h, d, f)
  {
  }

  lemma FreshEnd(h: Host, values: seq<Value>, index: nat, seen: set<string>)
    requires index >= |values|
    ensures Fresh(h, values, index, seen)
  {
  }

  lemma FreshStep(h: Host, values: seq<Value>, index: nat, seen: set<string>, v: Value)
    requires index < |values| && values[index].Text? && values[index].text != "" && h.lower(values[index].text) !in seen
    requires Fresh(h, values[index := v], index + 1, seen + {h.lower(values[index].text)})
    ensures Fresh(h, values, index, seen)
  {
    var next := values[index := v];
    assert forall j | index < j < |values| :: next[j] == values[j];
  }

  lemma ReadNothing(h: Host, def: Definition, d: Document, values: seq<Value>, index: nat, base: bool)
    requires Ready(def, d, values) && index >= |values| && base
    ensures Read(h, def, d, values, index, base, d)
  {
    hide Ready, Admitted;
    assert RespelledFrom(h, def, values, index) == values;
  }

  lemma ReadStep(h: Host, def: Definition, d: Document, values: seq<Value>, index: nat, base: bool, e: Document,
                 out: Document)
    requires index < |values| && values[index].Text? && SameElsewhere(h, d, e) && (Admitted(d) ==> Admitted(e))
    requires !IsBase(h, def, values[index]) ==> Admitted(e) && h.lower(values[index].text) == h.lower(ENTERPRISE_SCHEMA)
    requires Read(h, def, e, values[index := Respelled(h, def, values[index])], index + 1, base
                  || IsBase(h, def, values[index]), out)
    ensures Read(h, def, d, values, index, base, out)
  {
    hide Ready, Admitted, SameElsewhere, IsBase, Respelled;
    SameElsewhereChains(h, d, e, out);
    var next := values[index := Respelled(h, def, values[index])];
    assert forall j | index < j < |values| :: next[j] == values[j];
    assert RespelledFrom(h, def, next, index + 1) == RespelledFrom(h, def, values, index);
    hide RespelledFrom;
    assert OthersAdmitted(h, def, values, index, out);
    hide OthersAdmitted;
    if HasBase(h, def, next, index + 1) {
      var j :| index + 1 <= j < |next| && IsBase(h, def, next[j]);
      assert IsBase(h, def, values[j]);
    }
  }

  /** Canonical entries, each once, are read without change. */
  lemma {:induction false} LoopAgain(h: Host, def: Definition, d: Document, values: seq<Value>, index: nat,
                                     seen: set<string>, base: bool)
    requires WellKnown(def) && Sensible(h) && "schemas" in d && d["schemas"] == Array(values) && index <= |values|
    requires def.extensions != [] ==> h.fold(def.schema) != h.fold(ENTERPRISE_SCHEMA)
    requires Fresh(h, values, index, seen)
    requires forall j | 0 <= j < |values| :: values[j] == Value.Text(def.schema) ||
               (values[j] == Value.Text(ENTERPRISE_SCHEMA) && |def.extensions| == 1 && Admitted(d))
    requires base || exists j | index <= j < |values| :: values[j] == Value.Text(def.schema)
    ensures SchemaLoop(h, def, d, values, index, seen, base) == Some(d)
    decreases |values| - index
  {
    hide ValidateEnterprise, Sensible;
    if index < |values| {
      var entry := values[index].text;
      var known := seen + {h.lower(entry)};
      assert values[index := values[index]] == values && Respell(d, values) == d;
      if values[index] == Value.Text(def.schema) {
        LoopAgain(h, def, d, values, index + 1, known, true);
      } else {
        var e := def.extensions[0];
        assert FindExtension(h, def.extensions, h.lower(entry)) == Some(e);
        assert d[e.schema := d[e.schema]] == d;
        assert AdmitExtension(h, d, e) == Some(d);
        LoopAgain(h, def, d, values, index + 1, known, base);
      }
    }
  }

  // ---------- preparing again ----------

  lemma {:induction false} LoopReadsFresh(h: Host, def: Definition, d: Document, values: seq<Value>, index: nat,
                                          seen: set<string>, base: bool)
    requires SchemaLoop(h, def, d, values, index, seen, base).Some?
    ensures Fresh(h, values, index, seen)
    decreases |values| - index
  {
    hide AdmitExtension, Fresh, RequiredPresent;
    if index < |values| {
      var entry := values[index].text;
      var known := seen + {h.lower(entry)};
      if h.fold(entry) == h.fold(def.schema) {
        var next := values[index := Value.Text(def.schema)];
        LoopReadsFresh(h, def, Respell(d, next), next, index + 1, known, true);
        FreshStep(h, values, index, seen, Value.Text(def.schema));
      } else {
        var e := FindExtension(h, def.extensions, h.lower(entry)).value;
        var next := values[index := Value.Text(e.schema)];
        LoopReadsFresh(h, def, AdmitExtension(h, Respell(d, next), e).value, next, index + 1, known, base);
        FreshStep(h, values, index, seen, Value.Text(e.schema));
      }
    } else {
      FreshEnd(h, values, index, seen);
    }
  }

  lemma TextsStayBalanced(items: seq<Value>)
    requires forall v | v in items :: v.Text?
    ensures Balance(Array(items)) == Array(items)
  {
    assert Balanced(items) == items;
    OnePrimaryStays(items);
  }

  /** Two entries for the base schema can only both be there when neither is an extension. */
  predicate OneBase(h: Host, def: Definition, items: seq<Value>) {
    forall i, j | 0 <= i < j < |items| :: !(IsBase(h, def, items[i]) && IsBase(h, def, items[j]))
  }

  /** The first pass over the schemas, and what a second pass makes of its result. */
  lemma SchemasSettle(h: Host, def: Definition, d: Document)
    requires WellKnown(def) && Sensible(h) && Calm(def, d) && ExtensionStripped(def, d) && SchemaSet(h, def, d).Some?
    ensures var out := SchemaSet(h, def, d).value;
      && Ready(def, out, SchemaItems(out)) && SameElsewhere(h, d, out)
      && Balance(out["schemas"]) == out["schemas"]
      && |SchemaItems(out)| == |SchemaItems(d)|
      && SchemaItems(out) == RespelledFrom(h, def, SchemaItems(d), 0)
      && OthersAdmitted(h, def, SchemaItems(d), 0, out) && HasBase(h, def, SchemaItems(d), 0)
      && Fresh(h, SchemaItems(d), 0, {})
  {
    hide Ready, SameElsewhere, OthersAdmitted, Fresh, SchemaLoop, Calm, ExtensionStripped, Balance, WellKnown, Sensible,
         Respelled, HasBase;
    var values := SchemaItems(d);
    var out := SchemaSet(h, def, d).value;
    ItemsAreReady(def, d);
    LoopReads(h, def, d, values, 0, {}, false);
    var final := RespelledFrom(h, def, values, 0);
    ReadyItems(def, out, final);
    RespelledAreTexts(h, def, values);
    TextsStayBalanced(final);
  }

  lemma ItemsAreReady(def: Definition, d: Document)
    requires Calm(def, d) && ExtensionStripped(def, d) && SchemaItems(d) != []
    ensures Ready(def, d, SchemaItems(d))
  {
  }

  lemma RespelledAreTexts(h: Host, def: Definition, values: seq<Value>)
    ensures forall v | v in RespelledFrom(h, def, values, 0) :: v.Text?
  {
  }

  lemma ReadyItems(def: Definition, d: Document, values: seq<Value>)
    requires Ready(def, d, values)
    ensures "schemas" in d && d["schemas"] == Array(values) && SchemaItems(d) == values
  {
  }

  lemma TwoBasesClash(h: Host, def: Definition, items: seq<Value>)
    requires Fresh(h, RespelledFrom(h, def, items, 0), 0, {})
    ensures OneBase(h, def, items)
  {
    forall i, j | 0 <= i < j < |items|
      ensures !(IsBase(h, def, items[i]) && IsBase(h, def, items[j]))
    {
      var final := RespelledFrom(h, def, items, 0);
      assert h.lower(final[i].text) != h.lower(final[j].text);
    }
  }

  lemma OneBaseIsFresh(h: Host, def: Definition, items: seq<Value>, out: Document)
    requires OneBase(h, def, items) && Fresh(h, items, 0, {}) && OthersAdmitted(h, def, items, 0, out)
    requires def.schema != "" && (def.schema == USER_SCHEMA || |items| <= 1) && Sensible(h)
    ensures Fresh(h, RespelledFrom(h, def, items, 0), 0, {})
  {
    hide Admitted;
    var final := RespelledFrom(h, def, items, 0);
    forall i, j | 0 <= i < j < |final|
      ensures h.lower(final[i].text) != h.lower(final[j].text)
    {
      assert IsBase(h, def, items[i]) != IsBase(h, def, items[j]);
    }
  }

  ghost predicate StandardDefinition(def: Definition) { def == UserDefinition() || def == GroupDefinition() }

  /** The second pass succeeds, without change, exactly when there was one entry for the base schema. */
  lemma SchemasAgain(h: Host, def: Definition, d: Document, again: Document)
    requires WellKnown(def) && Sensible(h) && Calm(def, d) && ExtensionStripped(def, d) && SchemaSet(h, def, d).Some?
    requires def.schema == USER_SCHEMA || (def.schema == GROUP_SCHEMA && def.extensions == [])
    requires again == SchemaSet(h, def, d).value ||
      ("userName" in again && again == SchemaSet(h, def, d).value["userName" := again["userName"]])
    ensures SchemaSet(h, def, again) == if OneBase(h, def, SchemaItems(d)) then Some(again) else None
  {
    var items, out := SchemaItems(d), SchemaSet(h, def, d).value;
    var final := RespelledFrom(h, def, items, 0);
    SchemasSettle(h, def, d);
    assert "schemas" in again && again["schemas"] == Array(final);
    assert Admitted(out) ==> Admitted(again);
    hide Admitted, Ready, SameElsewhere, Fresh, SchemaLoop, Calm, ExtensionStripped, Sensible, ValidateEnterprise,
         EnterpriseAttributes, Usual;
    if SchemaSet(h, def, again).Some? {
      LoopReadsFresh(h, def, again, final, 0, {}, false);
      TwoBasesClash(h, def, items);
    }
    if OneBase(h, def, items) {
      OneBaseIsFresh(h, def, items, out);
      SensibleSchemas(h);
      var b :| 0 <= b < |items| && IsBase(h, def, items[b]);
      assert final[b] == Value.Text(def.schema);
      forall j | 0 <= j < |final|
        ensures final[j] == Value.Text(def.schema)
          || (final[j] == Value.Text(ENTERPRISE_SCHEMA) && |def.extensions| == 1 && Admitted(again))
      {
        if !IsBase(h, def, items[j]) {
          assert |items| > 1;
        }
      }
      LoopAgain(h, def, again, final, 0, {}, false);
    }
  }

  lemma SensibleSchemas(h: Host)
    requires Sensible(h)
    ensures h.fold(USER_SCHEMA) != h.fold(ENTERPRISE_SCHEMA)
  {
  }
}
