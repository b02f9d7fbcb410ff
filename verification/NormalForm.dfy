/** The normal form of a resource: what prepareResource strips, tidies, respells and checks. */
module NormalForm {
  import opened Values
  import opened Text
  import opened Records
  import Schema

  type Attribute = Schema.Attribute

  const MAXIMUM_VALUES := 1000
  const USER_SCHEMA := "urn:ietf:params:scim:schemas:core:2.0:User"
  const GROUP_SCHEMA := "urn:ietf:params:scim:schemas:core:2.0:Group"
  const ENTERPRISE_SCHEMA := "urn:ietf:params:scim:schemas:extension:enterprise:2.0:User"

  /** Library functions: case folding and lower-casing, trimming, international preparation of user
      names, the first match of a map iteration, and the syntax of non-text attribute types. */
  datatype Host = Host(
    fold: string -> string,
    lower: string -> string,
    trim: string -> string,
    prepare: string -> Option<string>,
    pick: set<string> -> string,
    simple: (Value, Attribute) -> bool)

  /** A definition; an extension may rewrite its object while validating it. */
  datatype Extension = Extension(schema: string, attributes: seq<Attribute>, required: bool,
                                 validate: Option<Document -> Option<Document>>)

  datatype Definition = Definition(name: string, schema: string, attributes: seq<Attribute>, uniqueAttribute: string,
                                   filterAttributes: seq<string>, extensions: seq<Extension>)

  datatype Prepared = Prepared(document: Document, indexes: seq<IndexKey>, externalId: string)

  // ---------- read-only attributes ----------

  function Strip(d: Document, attributes: seq<Attribute>): Document
    decreases attributes
  {
    if attributes == [] then d
    else
      var a := attributes[0];
      var stripped :=
        if a.mutability == "readOnly" then d - {a.name}
        else if a.kind != "complex" || a.name !in d then d
        else
          match d[a.name]
          case Object(fields) => d[a.name := Object(Strip(fields, a.subAttributes))]
          case Array(items) =>
            d[a.name := Array(seq(|items|, i requires 0 <= i < |items| =>
              if items[i].Object? then Object(Strip(items[i].fields, a.subAttributes)) else items[i]))]
          case _ => d;
      Strip(stripped, attributes[1..])
  }

  function StripExtensions(d: Document, extensions: seq<Extension>): Document {
    if extensions == [] then d
    else
      var e := extensions[0];
      StripExtensions(
        if e.schema in d && d[e.schema].Object? then d[e.schema := Object(Strip(d[e.schema].fields, e.attributes))]
          else d,
        extensions[1..])
  }

  // ---------- unassigned values ----------

  predicate Blank(v: Value) { v.Null? || v == Value.Text("") }

  predicate Unassigned(v: Value) {
    Blank(v) || (v.Array? && forall i | 0 <= i < |v.items| :: Blank(v.items[i]))
  }

  function Tidy(v: Value): Value
    decreases v
  {
    match v
    case Object(fields) => Object(map k | k in fields && !Unassigned(fields[k]) :: Tidy(fields[k]))
    case Array(items) => Array(TidyItems(items))
    case _ => v
  }

  /** Blank elements go; objects among the others are tidied. */
  function TidyItems(items: seq<Value>): seq<Value>
    decreases items
  {
    if items == [] then []
    else
      (if Blank(items[0]) then [] else if items[0].Object? then [Tidy(items[0])] else [items[0]])
      + TidyItems(items[1..])
  }

  /** The schemas of a resource are left as they are. */
  function TidyDocument(d: Document): Document {
    map k | k in d && (k == "schemas" || !Unassigned(d[k])) :: if k == "schemas" then d[k] else Tidy(d[k])
  }

  // ---------- primary values ----------

  /** The position after the last primary element, or zero. */
  function AfterLastPrimary(items: seq<Value>): (n: nat)
    ensures n <= |items|
    ensures n > 0 ==> IsPrimary(items[n - 1])
    ensures forall i | n <= i < |items| :: !IsPrimary(items[i])
  {
    if items == [] then 0
    else if IsPrimary(items[|items| - 1]) then |items|
    else AfterLastPrimary(items[..|items| - 1])
  }

  function Demoted(v: Value): Value {
    if v.Object? && "primary" in v.fields then Object(v.fields["primary" := Bool(false)]) else v
  }

  /** At most one element of an array stays primary: the last. */
  function OnePrimary(items: seq<Value>): seq<Value> {
    var n := AfterLastPrimary(items);
    if n == 0 then items
    else seq(|items|, i requires 0 <= i < |items| => if i == n - 1 then items[i] else Demoted(items[i]))
  }

  function Balance(v: Value): Value
    decreases v
  {
    match v
    case Object(fields) => Object(map k | k in fields :: Balance(fields[k]))
    case Array(items) =>
      Array(OnePrimary(seq(|items|, i requires 0 <= i < |items| => if items[i].Object? then Balance(items[i])
        else items[i])))
    case _ => v
  }

  // ---------- the schemas attribute ----------

  function FindExtension(h: Host, extensions: seq<Extension>, folded: string): (r: Option<Extension>)
    ensures r.Some? ==> r.value in extensions && h.lower(r.value.schema) == folded
    ensures r.None? ==> forall e | e in extensions :: h.lower(e.schema) != folded
  {
    if extensions == [] then None
    else
      var last := extensions[|extensions| - 1];
      if h.lower(last.schema) == folded then Some(last) else FindExtension(h, extensions[..|extensions| - 1], folded)
  }

  /** The extension's object under its exact name, or moved there from a key that folds to it. */
  function ClaimExtension(h: Host, d: Document, schema: string): Document {
    if schema in d then d
    else
      var candidates := set k | k in d && h.fold(k) == h.fold(schema);
      var key := h.pick(candidates);
      if candidates == {} || key !in candidates then d else (d - {key})[schema := d[key]]
  }

  function AdmitExtension(h: Host, d: Document, e: Extension): Option<Document> {
    var claimed := ClaimExtension(h, d, e.schema);
    if e.schema !in claimed || !claimed[e.schema].Object? then None
    else if e.validate.None? then Some(claimed)
    else
      match e.validate.value(claimed[e.schema].fields)
      case None => None
      case Some(fields) => Some(claimed[e.schema := Object(fields)])
  }

  predicate RequiredPresent(h: Host, extensions: seq<Extension>, seen: set<string>) {
    forall i | 0 <= i < |extensions| :: extensions[i].required ==> h.lower(extensions[i].schema) in seen
  }

  function SchemaItems(d: Document): seq<Value> {
    if "schemas" in d && d["schemas"].Array? then d["schemas"].items else []
  }

  /** The entries are shared with the document, so respelling one shows in both. */
  function Respell(d: Document, values: seq<Value>): Document {
    if "schemas" in d then d["schemas" := Array(values)] else d
  }

  /** Each entry names the resource schema or one extension, and is respelled in place. */
  function SchemaLoop(h: Host, def: Definition, d: Document, values: seq<Value>, index: nat, seen: set<string>,
                      base: bool):
    Option<Document>
    decreases |values| - index
  {
    if index >= |values| then (if base && RequiredPresent(h, def.extensions, seen) then Some(d) else None)
    else if !values[index].Text? || values[index].text == "" || h.lower(values[index].text) in seen then None
    else
      var entry := values[index].text;
      var known := seen + {h.lower(entry)};
      if h.fold(entry) == h.fold(def.schema) then
        var next := values[index := Value.Text(def.schema)];
        SchemaLoop(h, def, Respell(d, next), next, index + 1, known, true)
      else
        match FindExtension(h, def.extensions, h.lower(entry))
        case None => None
        case Some(e) =>
          var next := values[index := Value.Text(e.schema)];
          match AdmitExtension(h, Respell(d, next), e)
          case None => None
          case Some(admitted) => SchemaLoop(h, def, admitted, next, index + 1, known, base)
  }

  function SchemaSet(h: Host, def: Definition, d: Document): Option<Document> {
    var values := SchemaItems(d);
    if 0 < |values| <= |def.extensions| + 1 then SchemaLoop(h, def, d, values, 0, {}, false) else None
  }

  // ---------- checks ----------

  predicate HasKind(v: Value, kind: string) {
    match kind
    case "string" => v.Text?
    case "boolean" => v.Bool?
    case "array" => v.Array?
    case "object" => v.Object?
    case _ => true
  }

  predicate TopLevel(h: Host, def: Definition, d: Document, allowed: map<string, string>) {
    forall k | k in d ::
      if k in allowed then HasKind(d[k], allowed[k])
      else exists i | 0 <= i < |def.extensions| :: h.lower(def.extensions[i].schema) == h.lower(k)
  }

  predicate RequiredString(d: Document, name: string, maximum: nat) {
    name in d && d[name].Text? && d[name].text != "" && ValidString(d[name].text, maximum)
  }

  predicate OptionalStrings(d: Document, names: seq<string>) {
    forall n | n in names :: OptionalString(d, n, MAXIMUM_STRING_BYTES).Some?
  }

  predicate StringObject(v: Value, allowed: seq<string>) {
    && v.Object? && |v.fields| <= |allowed|
    && forall k | k in v.fields ::
      k in allowed && v.fields[k].Text? && ValidString(v.fields[k].text, MAXIMUM_STRING_BYTES)
  }

  predicate MultiValue(v: Value, allowed: seq<string>) {
    && v.Array? && |v.items| <= MAXIMUM_VALUES
    && forall i | 0 <= i < |v.items| ::
         && v.items[i].Object? && |v.items[i].fields| <= |allowed| + 1
         && forall k | k in v.items[i].fields ::
              var w := v.items[i].fields[k];
              if k == "primary" then w.Bool? else k in allowed && w.Text? && ValidString(w.text, MAXIMUM_STRING_BYTES)
  }

  /** Values against their attributes; names outside the schema are refused inside complex values. */
  predicate ValidValues(h: Host, d: Document, attributes: seq<Attribute>)
    decreases attributes
  {
    attributes == [] ||
    var a := attributes[0];
    && (a.required ==> a.name in d)
    && (a.name in d ==>
          if a.multiValued then
            d[a.name].Array? && forall i | 0 <= i < |d[a.name].items| :: ValidValue(h, d[a.name].items[i], a)
          else !d[a.name].Array? && ValidValue(h, d[a.name], a))
    && ValidValues(h, d, attributes[1..])
  }

  predicate ValidValue(h: Host, v: Value, a: Attribute)
    decreases a
  {
    if a.kind == "complex" then
      v.Object? && (forall k | k in v.fields :: exists s | s in a.subAttributes :: s.name == k)
      && ValidValues(h, v.fields, a.subAttributes)
    else h.simple(v, a)
  }

  predicate ValidExtension(h: Host, fields: Document, attributes: seq<Attribute>) {
    && (forall k | k in fields :: exists s | s in attributes :: s.name == k)
    && ValidValues(h, fields, attributes)
  }

  predicate ValidExtensions(h: Host, d: Document, extensions: seq<Extension>) {
    forall i | 0 <= i < |extensions| && extensions[i].schema in d && d[extensions[i].schema].Object? ::
      ValidExtension(h, d[extensions[i].schema].fields, extensions[i].attributes)
  }

  // ---------- the standard resources ----------

  const USER_KINDS := map[
    "schemas" := "array", "externalId" := "string", "userName" := "string", "name" := "object",
    "displayName" := "string", "nickName" := "string", "profileUrl" := "string", "title" := "string",
    "userType" := "string", "preferredLanguage" := "string", "locale" := "string", "timezone" := "string",
    "active" := "boolean", "emails" := "array", "phoneNumbers" := "array", "ims" := "array", "photos" := "array",
    "addresses" := "array", "entitlements" := "array", "roles" := "array", "x509Certificates" := "array"]

  const GROUP_KINDS := map["schemas" := "array", "externalId" := "string", "displayName" := "string",
                           "members" := "array"]

  predicate UserDetails(d: Document) {
    && OptionalStrings(d, ["externalId", "displayName", "nickName", "profileUrl", "title", "userType",
                           "preferredLanguage", "locale", "timezone"])
    && ("active" in d ==> d["active"].Bool?)
    && ("name" in d ==> StringObject(d["name"],
          ["formatted", "familyName", "givenName", "middleName", "honorificPrefix", "honorificSuffix"]))
    && (forall n | n in ["emails", "phoneNumbers", "ims", "photos", "entitlements", "roles", "x509Certificates"] ::
          n in d ==> MultiValue(d[n], ["value", "display", "type", "$ref"]))
    && ("addresses" in d ==> MultiValue(d["addresses"],
          ["formatted", "streetAddress", "locality", "region", "postalCode", "country", "type"]))
  }

  predicate AcceptableName(h: Host, d: Document) {
    RequiredString(d, "userName", 1024) && h.trim(d["userName"].text) == d["userName"].text
  }

  /** The user name is replaced by its prepared form. */
  function ValidUser(h: Host, def: Definition, d: Document): Option<Document> {
    if !TopLevel(h, def, d, USER_KINDS) || !AcceptableName(h, d) then None
    else
      match h.prepare(d["userName"].text)
      case None => None
      case Some(name) =>
        var named := d["userName" := Value.Text(name)];
        if name != "" && UserDetails(named) then Some(named) else None
  }

  function WithoutDisplay(items: seq<Value>): seq<Value> {
    seq(|items|, i requires 0 <= i < |items| => if items[i].Object? then Object(items[i].fields - {"display"})
      else items[i])
  }

  predicate GroupDetails(d: Document) {
    "members" in d ==>
      && MultiValue(d["members"], ["value", "$ref", "display", "type"])
      && forall i | 0 <= i < |d["members"].items| :: RequiredString(d["members"].items[i].fields, "value", 1024)
  }

  /** Members lose their display names. */
  function ValidGroup(h: Host, def: Definition, d: Document): Option<Document> {
    if !TopLevel(h, def, d, GROUP_KINDS) then None
    else if !RequiredString(d, "displayName", MAXIMUM_STRING_BYTES)
      || h.trim(d["displayName"].text) != d["displayName"].text then None
    else if OptionalString(d, "externalId", MAXIMUM_STRING_BYTES).None? then None
    else
      var plain := if "members" in d then d["members" := Array(WithoutDisplay(d["members"].items))] else d;
      if GroupDetails(plain) then Some(plain) else None
  }

  /** The manager's display name is dropped. */
  function ValidateEnterprise(d: Document): Option<Document> {
    if !OptionalStrings(d, ["employeeNumber", "costCenter", "organization", "division", "department"]) then None
    else if exists k | k in d ::
      k !in ["employeeNumber", "costCenter", "organization", "division", "department", "manager"] then None
    else if "manager" !in d then Some(d)
    else if !d["manager"].Object? then None
    else
      var manager := Object(d["manager"].fields - {"displayName"});
      if StringObject(manager, ["value", "$ref"]) then Some(d["manager" := manager]) else None
  }

  function Simple(name: string, kind: string): Attribute {
    Schema.Attribute(name, kind, false, false, false, "readWrite", "default", [])
  }

  function ReadOnly(name: string): Attribute {
    Schema.Attribute(name, "string", false, false, false, "readOnly", "default", [])
  }

  function Plural(name: string, value: Attribute): Attribute {
    Schema.Attribute(name, "complex", true, false, false, "readWrite", "default",
      [value, ReadOnly("display"), Simple("type", "string"), Simple("primary", "boolean")])
  }

  function Texts(names: seq<string>): seq<Attribute> {
    if names == [] then [] else [Simple(names[0], "string")] + Texts(names[1..])
  }

  function EnterpriseAttributes(): seq<Attribute> {
    Texts(["employeeNumber", "costCenter", "organization", "division", "department"])
    + [Schema.Attribute("manager", "complex", false, false, false, "readWrite", "default",
         [Simple("value", "string"), Simple("$ref", "reference"), ReadOnly("displayName")])]
  }

  function IdentityAttributes(): seq<Attribute> {
    [Simple("userName", "string").(required := true),
     Simple("name", "complex").(subAttributes :=
       Texts(["formatted", "familyName", "givenName", "middleName", "honorificPrefix", "honorificSuffix"])),
     Simple("profileUrl", "reference"), Simple("active", "boolean"),
     Simple("password", "string").(mutability := "writeOnly", returned := "never")]
  }

  function TextAttributes(): seq<Attribute> {
    Texts(["displayName", "nickName", "title", "userType", "preferredLanguage", "locale", "timezone"])
  }

  function PluralAttributes(): seq<Attribute> {
    var value := Simple("value", "string");
    [Plural("emails", value), Plural("phoneNumbers", value), Plural("ims", value),
     Plural("photos", Simple("value", "reference")),
     Plural("entitlements", value), Plural("roles", value), Plural("x509Certificates", Simple("value", "binary"))]
  }

  function OtherAttributes(): seq<Attribute> {
    [Simple("addresses", "complex").(multiValued := true, subAttributes :=
       Texts(["formatted", "streetAddress", "locality", "region", "postalCode", "country", "type"])
       + [Simple("primary", "boolean")]),
     Simple("groups", "complex").(multiValued := true, mutability := "readOnly", subAttributes :=
       [ReadOnly("value"), ReadOnly("$ref").(kind := "reference"), ReadOnly("display"), ReadOnly("type")])]
  }

  /** The order of the attributes does not matter to preparation. */
  function UserAttributes(): seq<Attribute> {
    IdentityAttributes() + TextAttributes() + PluralAttributes() + OtherAttributes()
  }

  function GroupAttributes(): seq<Attribute> {
    [Simple("displayName", "string").(required := true),
     Simple("members", "complex").(multiValued := true, subAttributes :=
       [Simple("value", "string").(required := true, mutability := "immutable"),
        Simple("$ref", "reference").(mutability := "immutable"),
        Simple("type", "string").(mutability := "immutable"), ReadOnly("display")])]
  }

  function UserDefinition(): Definition {
    Definition("User", USER_SCHEMA, UserAttributes(), "userName", ["userName", "externalId"],
               [Extension(ENTERPRISE_SCHEMA, EnterpriseAttributes(), false, Some(ValidateEnterprise))])
  }

  function GroupDefinition(): Definition {
    Definition("Group", GROUP_SCHEMA, GroupAttributes(), "displayName", ["displayName", "externalId"], [])
  }

  // ---------- preparation ----------

  function Indexes(h: Host, def: Definition, d: Document, names: seq<string>): Option<seq<IndexKey>> {
    if names == [] then Some([])
    else
      var rest := Indexes(h, def, d, names[1..]);
      match StringPath(d, names[0])
      case NotText => None
      case Missing => rest
      case Found(text) =>
        if rest.None? then None
        else Some([IndexKey(names[0], text, h.fold(names[0]) == h.fold("externalId"),
                            h.fold(names[0]) == h.fold(def.uniqueAttribute))] + rest.value)
  }

  /** Everything up to the schema set: what clients may not write, unassigned values, primaries. */
  function Normalized(def: Definition, d: Document): Document {
    Balance(Object(TidyDocument(StripExtensions(Strip(d - {"id", "meta", "groups"}, def.attributes),
                                                def.extensions)))).fields
  }

  function Checked(h: Host, def: Definition, d: Document): Option<Document> {
    if def.name == "User" then ValidUser(h, def, d) else if def.name == "Group" then ValidGroup(h, def, d) else Some(d)
  }

  /** The checks that change nothing, and what is read off the final document. */
  function Finish(h: Host, def: Definition, d: Document): Option<Prepared> {
    if !ValidValues(h, d, def.attributes) || !ValidExtensions(h, d, def.extensions) then None
    else
      var externalId := OptionalString(d, "externalId", MAXIMUM_STRING_BYTES);
      var indexes := Indexes(h, def, d, def.filterAttributes);
      if externalId.None? || indexes.None? then None else Some(Prepared(d, indexes.value, externalId.value))
  }

  /** Preparation of a decoded document. */
  function Prepare(h: Host, def: Definition, d: Document): Option<Prepared> {
    if "password" in d then None
    else
      match SchemaSet(h, def, Normalized(def, d))
      case None => None
      case Some(settled) =>
        match Checked(h, def, settled)
        case None => None
        case Some(checked) => Finish(h, def, checked)
  }
}
