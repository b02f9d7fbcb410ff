/** Users that are accepted and then cannot be prepared again: the base schema written in two
    spellings, and a name that grows when it is prepared. */
module UnstableUsers {
  import opened Values
  import opened Text
  import opened Records
  import opened NormalForm
  import opened NormalFormFacts
  import opened NormalFormTheorems
  import opened ReadBack

  function SmallUser(items: seq<Value>, name: string): Document {
    map["schemas" := Array(items), "userName" := Value.Text(name)]
  }

  /** No attribute but the user name is required, and it is single-valued text. */
  predicate Lenient(attributes: seq<Attribute>) {
    forall a | a in attributes ::
      (a.required ==> a.name == "userName") && (a.name == "userName" ==> !a.multiValued && a.kind == "string")
  }

  lemma LenientParts(a: seq<Attribute>, b: seq<Attribute>)
    requires Lenient(a) && Lenient(b)
    ensures Lenient(a + b)
  {
  }

  lemma UserIsLenient()
    ensures Lenient(UserAttributes())
  {
    IdentityIsLenient();
    TextsAreLenient();
    PluralsAreLenient();
    OthersAreLenient();
    hide Lenient, TextAttributes, IdentityAttributes, PluralAttributes, OtherAttributes;
    LenientParts(IdentityAttributes(), TextAttributes());
    LenientParts(IdentityAttributes() + TextAttributes(), PluralAttributes());
    LenientParts(IdentityAttributes() + TextAttributes() + PluralAttributes(), OtherAttributes());
  }

  lemma IdentityIsLenient()
    ensures Lenient(IdentityAttributes())
  {
    hide Texts;
  }

  lemma TextsAreLenient()
    ensures Lenient(TextAttributes())
  {
    TextsAre(["displayName", "nickName", "title", "userType", "preferredLanguage", "locale", "timezone"]);
  }

  lemma PluralsAreLenient()
    ensures Lenient(PluralAttributes())
  {
    hide Simple, ReadOnly;
  }

  lemma OthersAreLenient()
    ensures Lenient(OtherAttributes())
  {
    hide Texts, ReadOnly;
  }

  lemma {:induction false} SmallIsStripped(items: seq<Value>, name: string, attributes: seq<Attribute>)
    requires Usual(attributes)
    ensures Stripped(SmallUser(items, name), attributes)
  {
    if attributes != [] {
      assert attributes[0] in attributes;
      SmallIsStripped(items, name, attributes[1..]);
    }
  }

  lemma {:induction false} SmallIsValid(h: Host, items: seq<Value>, name: string, attributes: seq<Attribute>)
    requires Usual(attributes) && Lenient(attributes) && forall a: Attribute | a.kind == "string" ::
      h.simple(Value.Text(name), a)
    ensures ValidValues(h, SmallUser(items, name), attributes)
  {
    if attributes != [] {
      assert attributes[0] in attributes;
      SmallIsValid(h, items, name, attributes[1..]);
    }
  }

  function IndexFor(h: Host, def: Definition, name: string, text: string): IndexKey {
    IndexKey(name, text, h.fold(name) == h.fold("externalId"), h.fold(name) == h.fold(def.uniqueAttribute))
  }

  lemma IndexesStep(h: Host, def: Definition, d: Document, name: string, names: seq<string>)
    requires Indexes(h, def, d, names).Some?
    ensures Indexes(h, def, d, [name] + names) ==
      match StringPath(d, name)
      case Missing => Indexes(h, def, d, names)
      case Found(text) => Some([IndexFor(h, def, name, text)] + Indexes(h, def, d, names).value)
      case NotText => None
  {
    hide StringPath;
    var all := [name] + names;
    assert all[1..] == names && all[0] == name;
  }

  lemma SmallPaths(items: seq<Value>, name: string)
    requires name != ""
    ensures StringPath(SmallUser(items, name), "userName") == Found(name)
    ensures StringPath(SmallUser(items, name), "externalId") == Missing
  {
    hide StringPath;
    var d := SmallUser(items, name);
    assert "userName" in d && d["userName"] == Value.Text(name) && "externalId" !in d;
    hide SmallUser;
    NoDots();
    TopLevelPath(d, "userName");
    TopLevelPath(d, "externalId");
  }

  lemma NoDots()
    ensures '.' !in "userName" && '.' !in "externalId"
  {
  }

  lemma FirstOfTwo(h: Host, def: Definition, d: Document, first: string, second: string, text: string)
    requires StringPath(d, first) == Found(text) && StringPath(d, second) == Missing
    ensures Indexes(h, def, d, [first, second]) == Some([IndexFor(h, def, first, text)])
  {
    hide StringPath, IndexFor;
    assert Indexes(h, def, d, []) == Some([]);
    IndexesStep(h, def, d, second, []);
    IndexesStep(h, def, d, first, [second]);
    hide Indexes;
    assert [second] + [] == [second] && [first] + [second] == [first, second];
    assert [IndexFor(h, def, first, text)] + [] == [IndexFor(h, def, first, text)];
  }

  lemma SmallIsIndexed(h: Host, items: seq<Value>, name: string)
    requires name != ""
    ensures Indexes(h, UserDefinition(), SmallUser(items, name), ["userName", "externalId"])
         == Some(SmallPrepared(h, 0, name).indexes)
  {
    hide Indexes, StringPath, UserAttributes, EnterpriseAttributes;
    SmallPaths(items, name);
    FirstOfTwo(h, UserDefinition(), SmallUser(items, name), "userName", "externalId", name);
  }

  /** Entries that all name the base schema are all respelled. */
  lemma {:induction false} AllBase(h: Host, def: Definition, items: seq<Value>, name: string, index: nat,
                                   seen: set<string>, base: bool)
    returns (settled: seq<Value>)
    requires index <= |items| && (base || index < |items|) && Fresh(h, items, index, seen)
    requires forall j | index <= j < |items| :: IsBase(h, def, items[j])
    requires forall i | 0 <= i < |def.extensions| :: !def.extensions[i].required
    ensures SchemaLoop(h, def, SmallUser(items, name), items, index, seen, base) == Some(SmallUser(settled, name))
    ensures |settled| == |items|
    ensures forall j | 0 <= j < |items| :: settled[j] == if j < index then items[j] else Value.Text(def.schema)
    decreases |items| - index
  {
    if index < |items| {
      var next := items[index := Value.Text(def.schema)];
      assert Respell(SmallUser(items, name), next) == SmallUser(next, name);
      settled := AllBase(h, def, next, name, index + 1, seen + {h.lower(items[index].text)}, true);
    } else {
      settled := items;
    }
  }

  /** Its prepared form: every entry respelled, and one index. */
  function SmallPrepared(h: Host, entries: nat, name: string): Prepared {
    Prepared(SmallUser(seq(entries, _ => Value.Text(USER_SCHEMA)), name),
             [IndexKey("userName", name, h.fold("userName") == h.fold("externalId"), true)], "")
  }

  /** A user with nothing but its schemas and a name is accepted. */
  lemma SmallUserIsAccepted(h: Host, items: seq<Value>, name: string, prepared: string)
    requires Sensible(h) && 1 <= |items| <= 2 && Fresh(h, items, 0, {})
    requires forall j | 0 <= j < |items| :: IsBase(h, UserDefinition(), items[j])
    requires AcceptableName(h, SmallUser(items, name)) && h.prepare(name) == Some(prepared) && prepared != ""
    requires forall a: Attribute | a.kind == "string" :: h.simple(Value.Text(prepared), a)
    ensures Prepare(h, UserDefinition(), SmallUser(items, name)) == Some(SmallPrepared(h, |items|, prepared))
  {
    hide Stripped, Sensible, Usual, WellKnown, Lenient, ValidValues, Indexes, Checked, SchemaLoop, Fresh, Normalized,
         Calm, ExtensionStripped, UserAttributes, EnterpriseAttributes, AcceptableName, Balance;
    var def, d := UserDefinition(), SmallUser(items, name);
    SmallIsNamed(h, items, name);
    SmallIsNormal(def, items, name);
    var settled := AllBase(h, def, items, name, 0, {}, false);
    SmallIsChecked(h, def, settled, name, prepared);
    SmallIsFinished(h, settled, prepared);
    assert settled == seq(|items|, _ => Value.Text(USER_SCHEMA));
    assert SchemaSet(h, def, d) == Some(SmallUser(settled, name));
  }

  lemma SmallIsNamed(h: Host, items: seq<Value>, name: string)
    requires AcceptableName(h, SmallUser(items, name))
    ensures name != "" && AcceptableName(h, SmallUser([], name))
  {
    hide ValidString;
  }

  lemma SmallIsNormal(def: Definition, items: seq<Value>, name: string)
    requires def == UserDefinition() && name != "" && forall v | v in items :: v.Text?
    ensures Normalized(def, SmallUser(items, name)) == SmallUser(items, name)
  {
    hide UserAttributes, EnterpriseAttributes, Stripped, Balance, TidyDocument, Normalized;
    UserIsWellKnown();
    SmallIsStripped(items, name, def.attributes);
    TextsStayBalanced(items);
    SmallIsCalm(def, items, name);
    CalmStays(def, SmallUser(items, name));
  }

  lemma SmallIsCalm(def: Definition, items: seq<Value>, name: string)
    requires name != "" && Stripped(SmallUser(items, name), def.attributes) && WellKnown(def)
    ensures Calm(def, SmallUser(items, name)) && ExtensionStripped(def, SmallUser(items, name))
  {
    hide Stripped, EnterpriseAttributes, Usual;
  }

  lemma SmallIsChecked(h: Host, def: Definition, items: seq<Value>, name: string, prepared: string)
    requires def.name == "User" && AcceptableName(h, SmallUser([], name)) && h.prepare(name) == Some(prepared)
      && prepared != ""
    ensures Checked(h, def, SmallUser(items, name)) == Some(SmallUser(items, prepared))
  {
    hide ValidString;
    var d := SmallUser(items, name);
    SmallHasKinds(h, def, items, name);
    SmallDetails(items, prepared);
    hide TopLevel, UserDetails;
    assert d["userName" := Value.Text(prepared)] == SmallUser(items, prepared);
  }

  lemma SmallHasKinds(h: Host, def: Definition, items: seq<Value>, name: string)
    ensures TopLevel(h, def, SmallUser(items, name), USER_KINDS)
  {
    assert "schemas" in USER_KINDS && USER_KINDS["schemas"] == "array";
    assert "userName" in USER_KINDS && USER_KINDS["userName"] == "string";
    assert HasKind(Array(items), "array") && HasKind(Value.Text(name), "string");
  }

  lemma SmallDetails(items: seq<Value>, name: string)
    ensures UserDetails(SmallUser(items, name))
  {
    hide ValidString, MultiValue, StringObject;
    var d := SmallUser(items, name);
    var names := ["externalId", "displayName", "nickName", "profileUrl", "title", "userType", "preferredLanguage",
                  "locale", "timezone"];
    assert "userName" !in names && "schemas" !in names;
    assert OptionalStrings(d, names);
  }

  lemma SmallIsFinished(h: Host, items: seq<Value>, name: string)
    requires name != "" && forall a: Attribute | a.kind == "string" :: h.simple(Value.Text(name), a)
    ensures Finish(h, UserDefinition(), SmallUser(items, name))
         == Some(Prepared(SmallUser(items, name), SmallPrepared(h, 0, name).indexes, ""))
  {
    hide UserAttributes, EnterpriseAttributes, ValidValues, Indexes;
    UserIsWellKnown();
    UserIsLenient();
    SmallIsValid(h, items, name, UserAttributes());
    SmallIsIndexed(h, items, name);
  }

  /** Accepted, and refused when its prepared form is prepared again. */
  ghost predicate AcceptedOnce(h: Host, def: Definition, d: Document) {
    Prepare(h, def, d).Some? && Prepare(h, def, Prepare(h, def, d).value.document) == None
  }

  lemma UnstableIsRefused(h: Host, d: Document)
    requires Sensible(h) && Prepare(h, UserDefinition(), d).Some?
    requires !NameFits(h, d) || !OneBase(h, UserDefinition(), SchemaItems(d))
    ensures AcceptedOnce(h, UserDefinition(), d)
  {
    hide Sensible, Prepare, UserAttributes, EnterpriseAttributes, NameFits, OneBase;
    PreparingTwice(h, UserDefinition(), d);
  }

  lemma OneEntry(h: Host)
    ensures Fresh(h, [Value.Text(USER_SCHEMA)], 0, {}) && IsBase(h, UserDefinition(), [Value.Text(USER_SCHEMA)][0])
  {
  }

  /** The base schema and a spelling of it with a long s, which folds to it but lower-cases to
      something else: accepted once, refused when prepared again. */
  lemma TwoSpellingsOfTheBase(h: Host)
    requires Sensible(h)
    requires h.fold("urn:ietf:params:\U{017f}cim:schemas:core:2.0:User") == h.fold(USER_SCHEMA)
    requires h.lower("urn:ietf:params:\U{017f}cim:schemas:core:2.0:User") != h.lower(USER_SCHEMA)
    requires h.trim("ada") == "ada" && h.prepare("ada") == Some("ada")
    requires forall a: Attribute | a.kind == "string" :: h.simple(Value.Text("ada"), a)
    ensures AcceptedOnce(h, UserDefinition(),
      SmallUser([Value.Text(USER_SCHEMA), Value.Text("urn:ietf:params:\U{017f}cim:schemas:core:2.0:User")], "ada"))
  {
    hide UserAttributes, EnterpriseAttributes, Sensible, Prepare;
    var items := [Value.Text(USER_SCHEMA), Value.Text("urn:ietf:params:\U{017f}cim:schemas:core:2.0:User")];
    var d := SmallUser(items, "ada");
    assert IsBase(h, UserDefinition(), items[0]) && IsBase(h, UserDefinition(), items[1]);
    assert Utf8Length("ada") == 3;
    SmallUserIsAccepted(h, items, "ada", "ada");
    assert !OneBase(h, UserDefinition(), SchemaItems(d));
    UnstableIsRefused(h, d);
  }

  /** A name that is within the limit but whose prepared form is not: accepted once, refused when
      prepared again. */
  lemma NameOutgrowsItsLimit(h: Host, name: string, prepared: string)
    requires Sensible(h) && AcceptableName(h, SmallUser([], name)) && h.prepare(name) == Some(prepared)
      && Utf8Length(prepared) > 1024
    requires forall a: Attribute | a.kind == "string" :: h.simple(Value.Text(prepared), a)
    ensures AcceptedOnce(h, UserDefinition(), SmallUser([Value.Text(USER_SCHEMA)], name))
  {
    hide UserAttributes, EnterpriseAttributes, Sensible, Prepare, AcceptableName, SchemaItems, OneBase, AcceptedOnce,
         Utf8Length, NameFits, Fresh, IsBase;
    var items := [Value.Text(USER_SCHEMA)];
    var d := SmallUser(items, name);
    SmallIsNamedAgain(h, items, name);
    OneEntry(h);
    TooLong(h, d, prepared);
    SmallUserIsAccepted(h, items, name, prepared);
    UnstableIsRefused(h, d);
  }

  lemma SmallIsNamedAgain(h: Host, items: seq<Value>, name: string)
    requires AcceptableName(h, SmallUser([], name))
    ensures AcceptableName(h, SmallUser(items, name)) && name != ""
  {
    hide ValidString;
  }

  lemma TooLong(h: Host, d: Document, prepared: string)
    requires "userName" in d && d["userName"].Text? && h.prepare(d["userName"].text) == Some(prepared)
      && Utf8Length(prepared) > 1024
    ensures !NameFits(h, d) && prepared != ""
  {
    assert Utf8Length("") == 0;
    hide Utf8Length;
  }

  // ---------- such a name ----------

  function Repeat(unit: string, n: nat): string {
    if n == 0 then "" else unit + Repeat(unit, n - 1)
  }

  lemma {:induction false} LengthsAdd(s: string, t: string)
    ensures Utf8Length(s + t) == Utf8Length(s) + Utf8Length(t)
  {
    if s == "" {
      assert s + t == t;
    } else {
      assert (s + t)[1..] == s[1..] + t;
      LengthsAdd(s[1..], t);
    }
  }

  lemma {:induction false} RepeatedLength(unit: string, n: nat)
    ensures Utf8Length(Repeat(unit, n)) == n * Utf8Length(unit)
    ensures forall c | c in Repeat(unit, n) :: c in unit
  {
    if n > 0 {
      RepeatedLength(unit, n - 1);
      LengthsAdd(unit, Repeat(unit, n - 1));
    }
  }

  /** The letter qa as one character, and its canonical decomposition. */
  const QA := "\U{0958}"
  const DECOMPOSED := "\U{0915}\U{093C}"

  /** 341 times the letter qa is a name of 1023 bytes; normalization writes each as two characters, 2046
      bytes in all. The user is accepted once and then refused. */
  lemma ManyQasOutgrowTheLimit(h: Host)
    requires Sensible(h) && h.trim(Repeat(QA, 341)) == Repeat(QA, 341)
    requires h.prepare(Repeat(QA, 341)) == Some(Repeat(DECOMPOSED, 341))
    requires forall a: Attribute | a.kind == "string" :: h.simple(Value.Text(Repeat(DECOMPOSED, 341)), a)
    ensures Utf8Length(Repeat(QA, 341)) == 1023 && Utf8Length(Repeat(DECOMPOSED, 341)) == 2046
    ensures AcceptedOnce(h, UserDefinition(), SmallUser([Value.Text(USER_SCHEMA)], Repeat(QA, 341)))
  {
    hide AcceptedOnce, UserAttributes, EnterpriseAttributes, Sensible, Repeat;
    RepeatedLength(QA, 341);
    RepeatedLength(DECOMPOSED, 341);
    LettersAreLong();
    hide Utf8Length;
    QasAreAcceptable(h, Repeat(QA, 341));
    NameOutgrowsItsLimit(h, Repeat(QA, 341), Repeat(DECOMPOSED, 341));
  }

  lemma LettersAreLong()
    ensures Utf8Length(QA) == 3 && Utf8Length(DECOMPOSED) == 6
  {
    assert QA[1..] == "" && DECOMPOSED[1..] == "\U{093C}" && DECOMPOSED[1..][1..] == "";
    assert Utf8Length("") == 0;
  }

  lemma QasAreAcceptable(h: Host, name: string)
    requires Utf8Length(name) == 1023 && h.trim(name) == name && forall c | c in name :: c in QA
    ensures AcceptableName(h, SmallUser([], name))
  {
    assert Utf8Length("") == 0;
    hide Utf8Length;
    assert forall c | c in QA :: c == QA[0] && !IsControl(c);
  }
}
