/** What clients may and must write of the standard resources: told by the names of the attributes. */
module StandardTables {
  import opened NormalForm

  /** What clients may do with the value, and whether they must give it. */
  ghost predicate Asks(a: Attribute, mutability: string, required: bool) {
    a.mutability == mutability && a.required == required && !a.caseExact
  }

  lemma {:induction false} TextsAre(names: seq<string>, a: Attribute)
    ensures a in Texts(names) <==> a.name in names && a == Simple(a.name, "string")
  {
    if names != [] {
      TextsAre(names[1..], a);
    }
  }

  /** Displayed names are read-only, and the reference of a member to its resource cannot be edited. */
  lemma GroupTable(a: Attribute)
    requires a in GroupAttributes()
    ensures Asks(a, "readWrite", a.name == "displayName") && (a.multiValued <==> a.name != "displayName")
    ensures a.kind == (if a.name == "displayName" then "string" else "complex") && a.returned == "default"
    ensures a.name != "displayName" ==> a.name == "members" && |a.subAttributes| == 4
    ensures forall s | s in a.subAttributes ::
      && Asks(s, if s.name == "display" then "readOnly" else "immutable", s.name == "value")
      && s.name in ["value", "$ref", "type", "display"] && !s.multiValued && s.returned == "default"
      && s.kind == if s.name == "$ref" then "reference" else "string"
  {
  }

  /** Of an enterprise user the name of the manager is read-only. */
  lemma EnterpriseTable(a: Attribute)
    requires a in EnterpriseAttributes()
    ensures a.name in ["employeeNumber", "costCenter", "organization", "division", "department", "manager"]
    ensures Asks(a, "readWrite", false) && !a.multiValued && a.returned == "default"
    ensures a.kind == if a.name == "manager" then "complex" else "string"
    ensures a.subAttributes != [] <==> a.name == "manager"
    ensures forall s | s in a.subAttributes ::
      && Asks(s, if s.name == "displayName" then "readOnly" else "readWrite", false)
      && s.name in ["value", "$ref", "displayName"] && !s.multiValued && s.returned == "default"
      && s.kind == if s.name == "$ref" then "reference" else "string"
  {
    TextsAre(["employeeNumber", "costCenter", "organization", "division", "department"], a);
    hide Texts;
  }

  const NAME_PARTS := ["formatted", "familyName", "givenName", "middleName", "honorificPrefix", "honorificSuffix"]
  const ADDRESS_PARTS := ["formatted", "streetAddress", "locality", "region", "postalCode", "country", "type"]

  /** All of them are texts that clients may write and leave out. */
  ghost predicate Texting(attributes: seq<Attribute>, names: seq<string>) {
    forall s | s in attributes :: s.name in names && s == Simple(s.name, "string")
  }

  lemma AllText(names: seq<string>)
    ensures Texting(Texts(names), names)
  {
    forall s | s in Texts(names)
      ensures s.name in names && s == Simple(s.name, "string")
    {
      TextsAre(names, s);
    }
  }

  lemma IdentityTable(a: Attribute)
    requires a in IdentityAttributes()
    ensures a.name != "groups"
    ensures Asks(a, if a.name == "password" then "writeOnly" else "readWrite", a.name == "userName")
    ensures a.returned == (if a.name == "password" then "never" else "default") && !a.multiValued
    ensures a.kind == if a.name == "name" then "complex" else if a.name == "profileUrl" then "reference"
                      else if a.name == "active" then "boolean" else "string"
    ensures if a.name == "name" then Texting(a.subAttributes, NAME_PARTS) else a.subAttributes == []
  {
    AllText(NAME_PARTS);
    hide Texting, Texts;
  }

  /** The multi-valued attribute of this name around one kind of value. */
  ghost predicate Manifold(a: Attribute, name: string, kind: string) {
    && a.name == name
    && Asks(a, "readWrite", false) && a.multiValued && a.kind == "complex" && a.returned == "default"
    && forall s | s in a.subAttributes ::
         && Asks(s, if s.name == "display" then "readOnly" else "readWrite", false)
         && s.name in ["value", "display", "type", "primary"] && !s.multiValued && s.returned == "default"
         && s.kind == if s.name == "primary" then "boolean" else if s.name == "value" then kind else "string"
  }

  lemma PluralIs(name: string, kind: string)
    ensures Manifold(Plural(name, Simple("value", kind)), name, kind)
  {
  }

  lemma PluralTable(a: Attribute)
    requires a in PluralAttributes()
    ensures || Manifold(a, "emails", "string") || Manifold(a, "phoneNumbers", "string") || Manifold(a, "ims", "string")
            || Manifold(a, "entitlements", "string") || Manifold(a, "roles", "string")
            || Manifold(a, "photos", "reference") || Manifold(a, "x509Certificates", "binary")
  {
    PluralIs("emails", "string");
    PluralIs("phoneNumbers", "string");
    PluralIs("ims", "string");
    PluralIs("entitlements", "string");
    PluralIs("roles", "string");
    PluralIs("photos", "reference");
    PluralIs("x509Certificates", "binary");
    hide Plural, Simple, Manifold;
  }

  lemma OtherTable(a: Attribute)
    requires a in OtherAttributes()
    ensures a.name == "addresses" || a.name == "groups"
    ensures a.multiValued && a.kind == "complex" && a.returned == "default"
    ensures Asks(a, if a.name == "groups" then "readOnly" else "readWrite", false)
    ensures forall s | s in a.subAttributes && a.name == "groups" ::
      && Asks(s, "readOnly", false) && !s.multiValued && s.returned == "default"
      && s.name in ["value", "$ref", "display", "type"]
      && s.kind == if s.name == "$ref" then "reference" else "string"
    ensures a.name == "addresses" ==>
      exists texts :: Texting(texts, ADDRESS_PARTS) && a.subAttributes == texts + [Simple("primary", "boolean")]
  {
    AllText(ADDRESS_PARTS);
    hide Texting, Texts;
  }

  /** Of a user only the name is required, groups and displayed names are read-only, nothing is
      immutable, and the password alone is written and never read. */
  lemma UserTable(a: Attribute)
    requires a in UserAttributes()
    ensures Asks(a, if a.name == "groups" then "readOnly"
                    else if a.name == "password" then "writeOnly" else "readWrite", a.name == "userName")
    ensures a.returned == if a.name == "password" then "never" else "default"
    ensures forall s | s in a.subAttributes ::
      && Asks(s, if a.name == "groups" || s.name == "display" then "readOnly" else "readWrite", false)
      && s.returned == "default"
  {
    hide IdentityAttributes, PluralAttributes, OtherAttributes, TextAttributes;
    if a in IdentityAttributes() {
      IdentityTable(a);
    } else if a in PluralAttributes() {
      PluralTable(a);
    } else if a in OtherAttributes() {
      OtherTable(a);
    } else {
      PlainTable(a);
    }
  }

  lemma PlainTable(a: Attribute)
    requires a in TextAttributes()
    ensures a == Simple(a.name, "string")
    ensures a.name in ["displayName", "nickName", "title", "userType", "preferredLanguage", "locale", "timezone"]
  {
    TextsAre(["displayName", "nickName", "title", "userType", "preferredLanguage", "locale", "timezone"], a);
    hide Texts;
  }
}
