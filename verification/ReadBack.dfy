/** When a prepared resource is prepared again, and so when a stored one can be read: the code
    does not always meet its own normal form, and this says exactly when it does. */
module ReadBack {
  import opened Values
  import opened Text
  import opened NormalForm
  import opened NormalFormFacts
  import opened NormalFormTheorems

  // ---------- what normalization leaves in place ----------

  lemma {:induction false} StripLeaves(d: Document, attributes: seq<Attribute>, k: string)
    requires forall a | a in attributes && a.name == k :: a.mutability != "readOnly" && a.kind != "complex"
    ensures var s := Strip(d, attributes); (k in s <==> k in d) && (k in d ==> s[k] == d[k])
  {
    if attributes != [] {
      assert attributes[0] in attributes;
      StripLeaves(StripOne(d, attributes[0]), attributes[1..], k);
    }
  }

  /** The schemas and a text user name can be read off the document before normalization. */
  lemma NormalizedLeaves(def: Definition, d: Document)
    requires WellKnown(def)
    ensures var n := Normalized(def, d);
      && ("schemas" in n <==> "schemas" in d) && ("schemas" in d ==> n["schemas"] == Balance(d["schemas"]))
      && ("userName" in n ==> "userName" in d && n["userName"] == Balance(Tidy(d["userName"])))
  {
    var a := d - {"id", "meta", "groups"};
    var b := Strip(a, def.attributes);
    StripLeaves(a, def.attributes, "schemas");
    StripLeaves(a, def.attributes, "userName");
    hide Strip, Balance, Tidy, Unassigned, Usual;
    var c := StripExtensions(b, def.extensions);
    ExtensionsLeave(def, b, "schemas");
    ExtensionsLeave(def, b, "userName");
    var t := TidyDocument(c);
    BalanceOf(t);
  }

  lemma ExtensionsLeave(def: Definition, d: Document, k: string)
    requires WellKnown(def) && k != ENTERPRISE_SCHEMA
    ensures var c := StripExtensions(d, def.extensions); (k in c <==> k in d) && (k in d ==> c[k] == d[k])
  {
    if def.extensions != [] {
      assert def.extensions[1..] == [];
    }
  }

  lemma BalanceOf(t: Document)
    ensures var n := Balance(Object(t)); n.Object? && n.fields.Keys == t.Keys && forall k | k in t ::
      n.fields[k] == Balance(t[k])
  {
  }

  lemma TextWasText(v: Value)
    ensures Balance(Tidy(v)).Text? ==> Balance(Tidy(v)) == v
    ensures Balance(v).Array? <==> v.Array?
  {
  }

  lemma BalancedTexts(v: Value)
    requires v.Array? && forall x | x in Balance(v).items :: x.Text?
    ensures Balance(v) == v
  {
    var inner := Balanced(v.items);
    OnePrimaryIsAlone(inner);
    var one := OnePrimary(inner);
    forall i | 0 <= i < |v.items|
      ensures one[i] == v.items[i]
    {
      assert one[i] in Balance(v).items;
    }
    assert one == v.items;
  }

  lemma SchemaItemsAreOriginal(h: Host, def: Definition, d: Document)
    requires WellKnown(def) && Fresh(h, SchemaItems(Normalized(def, d)), 0, {})
    ensures SchemaItems(Normalized(def, d)) == SchemaItems(d)
  {
    NormalizedLeaves(def, d);
    hide Normalized, WellKnown;
    if "schemas" in d {
      TextWasText(d["schemas"]);
      if d["schemas"].Array? {
        forall x | x in Balance(d["schemas"]).items
          ensures x.Text?
        {
        }
        BalancedTexts(d["schemas"]);
      }
    }
  }

  // ---------- preparing twice ----------

  /** The prepared user name is itself an acceptable user name. */
  predicate NameFits(h: Host, d: Document) {
    && "userName" in d && d["userName"].Text?
    && var name := h.prepare(d["userName"].text);
       name.Some? && ValidString(name.value, 1024) && h.trim(name.value) == name.value
  }

  /** What a document needs beyond being accepted: one entry for the User schema, and a user name
      that stays acceptable when prepared. Groups need nothing. */
  predicate Stable(h: Host, def: Definition, d: Document) {
    def.name == "User" ==> OneBase(h, def, SchemaItems(d)) && NameFits(h, d)
  }

  lemma StandardFacts(def: Definition)
    requires StandardDefinition(def)
    ensures WellKnown(def)
    ensures def.name == "User" || def.name == "Group"
    ensures def.name == "User" ==> def.schema == USER_SCHEMA
    ensures def.name == "Group" ==> def.schema == GROUP_SCHEMA && def.extensions == []
  {
    UserIsWellKnown();
    GroupIsWellKnown();
    hide WellKnown, UserAttributes, GroupAttributes, EnterpriseAttributes;
  }

  lemma RenamedIsCalm(def: Definition, d: Document, name: string)
    requires WellKnown(def) && Calm(def, d) && ExtensionStripped(def, d) && "userName" in d && name != ""
    ensures var e := d["userName" := Value.Text(name)]; Calm(def, e) && ExtensionStripped(def, e)
  {
    hide Stripped, Quiet, EnterpriseAttributes;
    var e := d["userName" := Value.Text(name)];
    RenamedIsStripped(d, def.attributes, name);
    TextIsQuiet(name);
    assert ENTERPRISE_SCHEMA in d ==> e[ENTERPRISE_SCHEMA] == d[ENTERPRISE_SCHEMA];
    assert forall k | k in e && k != "userName" :: e[k] == d[k];
  }

  lemma TextIsQuiet(name: string)
    ensures name != "" ==> Quiet(Value.Text(name))
  {
  }

  lemma {:induction false} RenamedIsStripped(d: Document, attributes: seq<Attribute>, name: string)
    requires Usual(attributes) && Stripped(d, attributes) && "userName" in d
    ensures Stripped(d["userName" := Value.Text(name)], attributes)
  {
    if attributes != [] {
      assert attributes[0] in attributes;
      RenamedIsStripped(d, attributes[1..], name);
    }
  }

  lemma {:induction false} StrippedAttribute(d: Document, attributes: seq<Attribute>, a: Attribute)
    requires Stripped(d, attributes) && a in attributes && a.kind == "complex" && a.name in d
    ensures StrippedValue(d[a.name], a.subAttributes)
  {
    if a != attributes[0] {
      StrippedAttribute(d, attributes[1..], a);
    }
  }

  lemma {:induction false} StrippedReadOnly(d: Document, attributes: seq<Attribute>, a: Attribute)
    requires Stripped(d, attributes) && a in attributes && a.mutability == "readOnly"
    ensures a.name !in d
  {
    if a != attributes[0] {
      StrippedReadOnly(d, attributes[1..], a);
    }
  }

  /** Members carry no display name by the time it is dropped. */
  lemma GroupKeepsMembers(h: Host, def: Definition, d: Document)
    requires def == GroupDefinition() && Stripped(d, def.attributes) && ValidGroup(h, def, d).Some?
    ensures ValidGroup(h, def, d) == Some(d)
  {
    if "members" in d {
      var members := GroupAttributes()[1];
      var display := ReadOnly("display");
      assert members in def.attributes && members.name == "members" && members.kind == "complex";
      assert members.subAttributes[3] == display && display in members.subAttributes;
      StrippedAttribute(d, def.attributes, members);
      hide GroupAttributes, GroupDetails, TopLevel;
      var items := d["members"].items;
      forall i | 0 <= i < |items| && items[i].Object?
        ensures items[i].fields - {"display"} == items[i].fields
      {
        assert items[i] in items;
        StrippedReadOnly(items[i].fields, members.subAttributes, display);
      }
      assert WithoutDisplay(items) == items;
      assert d["members" := Array(items)] == d;
    }
  }

  /** The second check of a user is passed, without change, exactly when the prepared name fits. */
  lemma UserAgain(h: Host, def: Definition, d: Document)
    requires Sensible(h) && ValidUser(h, def, d).Some?
    ensures var k := ValidUser(h, def, d).value;
      && "userName" in k && k == d["userName" := k["userName"]] && k["userName"].Text? && k["userName"].text != ""
      && "userName" in d && d["userName"].Text?
      && ValidUser(h, def, k) == if NameFits(h, d) then Some(k) else None
  {
    hide UserDetails;
    var k := ValidUser(h, def, d).value;
    assert k["userName" := k["userName"]] == k;
    assert TopLevel(h, def, k, USER_KINDS) by {
      hide NameFits;
    }
  }

  lemma SettledIsSteady(h: Host, def: Definition, n: Document)
    requires WellKnown(def) && Sensible(h) && Calm(def, n) && ExtensionStripped(def, n) && SchemaSet(h, def, n).Some?
    ensures var s := SchemaSet(h, def, n).value;
      && Steady(def, s)
      && ("userName" in s <==> "userName" in n) && ("userName" in n ==> s["userName"] == n["userName"])
      && |SchemaItems(n)| <= |def.extensions| + 1 && Fresh(h, SchemaItems(n), 0, {})
  {
    hide SchemaLoop, Stripped, OthersAdmitted, Fresh, Balance;
    SchemasSettle(h, def, n);
  }

  lemma NameIsOriginal(h: Host, def: Definition, d: Document, s: Document)
    requires WellKnown(def)
    requires var n := Normalized(def, d);
      "userName" in n && "userName" in s && n["userName"] == s["userName"] && s["userName"].Text?
    ensures NameFits(h, s) <==> NameFits(h, d)
  {
    NormalizedLeaves(def, d);
    hide Normalized, WellKnown;
    TextWasText(d["userName"]);
  }

  ghost predicate Steady(def: Definition, d: Document) {
    WellKnown(def) && Calm(def, d) && ExtensionStripped(def, d) && "schemas" in d
      && Balance(d["schemas"]) == d["schemas"]
  }

  lemma UserCheckedAgain(h: Host, def: Definition, s: Document)
    requires def.name == "User" && Sensible(h) && Steady(def, s) && Checked(h, def, s).Some?
    ensures var k := Checked(h, def, s).value;
      && Steady(def, k) && "userName" in k && k == s["userName" := k["userName"]] && "userName" in s
        && s["userName"].Text?
      && Checked(h, def, k) == if NameFits(h, s) then Some(k) else None
  {
    hide Sensible, NameFits, WellKnown, Calm, ExtensionStripped, ValidUser, Balance;
    UserAgain(h, def, s);
    RenamedIsCalm(def, s, ValidUser(h, def, s).value["userName"].text);
  }

  lemma GroupCheckedAgain(h: Host, def: Definition, s: Document)
    requires def == GroupDefinition() && Steady(def, s) && Checked(h, def, s).Some?
    ensures Checked(h, def, s) == Some(s)
  {
    hide WellKnown, ExtensionStripped, ValidGroup, GroupAttributes, Stripped, Balance, Quiet;
    CalmIsStripped(def, s);
    GroupKeepsMembers(h, def, s);
  }

  lemma CalmIsStripped(def: Definition, d: Document)
    requires Calm(def, d)
    ensures Stripped(d, def.attributes)
  {
  }

  /** Preparing a prepared standard resource gives it back exactly when the original was stable, and
      otherwise it is refused. */
  lemma PreparingTwice(h: Host, def: Definition, d: Document)
    requires StandardDefinition(def) && Sensible(h) && Prepare(h, def, d).Some?
    ensures var p := Prepare(h, def, d).value;
      Prepare(h, def, p.document) == if Stable(h, def, d) then Some(p) else None
  {
    StandardFacts(def);
    var n := Normalized(def, d);
    var s := SchemaSet(h, def, n).value;
    var k := Checked(h, def, s).value;
    assert Finish(h, def, k) == Prepare(h, def, d) && Finish(h, def, k).value.document == k;
    hide Finish, SchemaSet, Checked, Calm, ExtensionStripped, WellKnown, Fresh, NameFits, OneBase, StandardDefinition,
         Sensible, SchemaItems, Balance, Normalized;
    NormalizedIsCalm(def, d);
    SettledIsSteady(h, def, n);
    SchemaItemsAreOriginal(h, def, d);
    if def.name == "User" {
      UserCheckedAgain(h, def, s);
      NameIsOriginal(h, def, d, s);
    } else {
      assert def == GroupDefinition() by {
        OnlyTwo(def);
      }
      GroupCheckedAgain(h, def, s);
      FewAreOneBase(h, def, SchemaItems(d));
    }
    CalmStays(def, k);
    SchemasAgain(h, def, n, k);
    CalmHasNoPassword(def, k);
  }

  lemma OnlyTwo(def: Definition)
    requires StandardDefinition(def) && def.name != "User"
    ensures def == GroupDefinition()
  {
  }

  lemma CalmHasNoPassword(def: Definition, d: Document)
    requires Calm(def, d)
    ensures "password" !in d
  {
  }

  lemma FewAreOneBase(h: Host, def: Definition, items: seq<Value>)
    requires |items| <= 1
    ensures OneBase(h, def, items)
  {
  }
}
