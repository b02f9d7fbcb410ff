/** What preparation does to a document, step by step: which values go, which primary marks are taken
    back, and what Users, Groups and enterprise extensions must be. */
module NormalLaws {
  import opened Values
  import opened Text
  import opened Records
  import opened NormalForm
  import Mutability

  // ---------- values that clients may not write ----------

  /** e is d without its read-only attributes, also inside complex values; all else is as it was. */
  ghost predicate Purged(d: Document, e: Document, attributes: seq<Attribute>)
    decreases attributes, 1
  {
    && (forall k :: k in e <==> k in d && forall a | a in attributes && a.name == k :: a.mutability != "readOnly")
    && (forall k | k in e && (forall a | a in attributes && a.name == k :: a.kind != "complex") :: e[k] == d[k])
    && forall a | a in attributes && a.kind == "complex" && a.name in e && a.name in d ::
         PurgedValue(d[a.name], e[a.name], a.subAttributes)
  }

  ghost predicate PurgedValue(v: Value, w: Value, attributes: seq<Attribute>)
    decreases attributes, 2
  {
    match v
    case Object(fields) => w.Object? && Purged(fields, w.fields, attributes)
    case Array(items) =>
      && w.Array? && |w.items| == |items|
      && forall i | 0 <= i < |items| ::
           if items[i].Object? then w.items[i].Object? && Purged(items[i].fields, w.items[i].fields, attributes)
           else w.items[i] == items[i]
    case _ => w == v
  }

  lemma {:induction false} StripPurges(d: Document, attributes: seq<Attribute>)
    requires Mutability.DistinctNames(attributes)
    ensures Purged(d, Strip(d, attributes), attributes)
    decreases attributes
  {
    if attributes != [] {
      var a, rest := attributes[0], attributes[1..];
      forall v: Value | v.Object?
        ensures Purged(v.fields, Strip(v.fields, a.subAttributes), a.subAttributes)
      {
        StripPurges(v.fields, a.subAttributes);
      }
      var once := StrippedOnce(d, a);
      StripPurges(once, rest);
      PurgedOnce(d, a);
      StripSteps(d, attributes);
      hide Strip, Purged, StrippedOnce;
      PurgedRest(d, once, Strip(once, rest), a, rest);
      assert [a] + rest == attributes;
    } else {
      NothingPurged(d);
    }
  }

  lemma NothingPurged(d: Document)
    ensures Purged(d, d, [])
  {
  }

  lemma StripSteps(d: Document, attributes: seq<Attribute>)
    requires attributes != []
    ensures Strip(d, attributes) == Strip(StrippedOnce(d, attributes[0]), attributes[1..])
  {
  }

  /** The first step of stripping. */
  function StrippedOnce(d: Document, a: Attribute): Document {
    if a.mutability == "readOnly" then d - {a.name}
    else if a.kind != "complex" || a.name !in d then d
    else
      match d[a.name]
      case Object(fields) => d[a.name := Object(Strip(fields, a.subAttributes))]
      case Array(items) =>
        d[a.name := Array(seq(|items|, i requires 0 <= i < |items| =>
          if items[i].Object? then Object(Strip(items[i].fields, a.subAttributes)) else items[i]))]
      case _ => d
  }

  lemma PurgedOnce(d: Document, a: Attribute)
    requires forall v: Value | v.Object? :: Purged(v.fields, Strip(v.fields, a.subAttributes), a.subAttributes)
    ensures Purged(d, StrippedOnce(d, a), [a])
  {
    hide Strip, Purged;
    if a.kind == "complex" && a.name in d && a.mutability != "readOnly" {
      match d[a.name]
      case Object(fields) => assert Purged(Object(fields).fields, Strip(fields, a.subAttributes), a.subAttributes);
      case Array(items) =>
        forall i | 0 <= i < |items| && items[i].Object?
          ensures Purged(items[i].fields, Strip(items[i].fields, a.subAttributes), a.subAttributes)
        {
        }
      case _ =>
    }
    OneIsPurged(d, StrippedOnce(d, a), a);
  }

  lemma OneIsPurged(d: Document, e: Document, a: Attribute)
    requires forall k | k != a.name :: (k in e <==> k in d) && (k in d ==> e[k] == d[k])
    requires a.name in e <==> a.name in d && a.mutability != "readOnly"
    requires a.name in e ==> if a.kind == "complex" then PurgedValue(d[a.name], e[a.name], a.subAttributes)
                             else e[a.name] == d[a.name]
    ensures Purged(d, e, [a])
  {
    hide PurgedValue;
    assert [a][0] == a && forall b :: b in [a] <==> b == a;
  }

  lemma PurgedRest(d: Document, once: Document, e: Document, a: Attribute, rest: seq<Attribute>)
    requires Purged(d, once, [a]) && Purged(once, e, rest) && forall b | b in rest :: b.name != a.name
    ensures Purged(d, e, [a] + rest)
  {
    hide PurgedValue;
    assert a in [a] && forall b :: b in [a] + rest <==> b == a || b in rest;
  }

  // ---------- unassigned values ----------

  /** Null and the empty text. */
  predicate Empty(v: Value) { v == Null || v == Value.Text("") }

  /** A value that counts as unassigned: empty, or an array of nothing but empty elements. */
  predicate Void(v: Value) {
    Empty(v) || (v.Array? && forall x | x in v.items :: Empty(x))
  }

  /** w is v without unassigned values: below objects, and below the objects in arrays. */
  ghost predicate Tidied(v: Value, w: Value)
    decreases v, 0
  {
    match v
    case Object(fields) =>
      && w.Object?
      && (forall k :: k in w.fields <==> k in fields && !Void(fields[k]))
      && forall k | k in fields && !Void(fields[k]) && k in w.fields :: Tidied(fields[k], w.fields[k])
    case Array(items) => w.Array? && TidiedItems(items, w.items)
    case _ => w == v
  }

  /** The elements that are not empty, in order, objects among them tidied. */
  ghost predicate TidiedItems(items: seq<Value>, out: seq<Value>)
    decreases items, 1
  {
    if items == [] then out == []
    else if Empty(items[0]) then TidiedItems(items[1..], out)
    else
      && out != []
      && (if items[0].Object? then Tidied(items[0], out[0]) else out[0] == items[0])
      && TidiedItems(items[1..], out[1..])
  }

  lemma {:induction false} TidyTidies(v: Value)
    ensures Tidied(v, Tidy(v))
    decreases v, 0
  {
    match v
    case Object(fields) =>
      VoidIsUnassigned(fields);
      forall k | k in fields && !Unassigned(fields[k])
        ensures Tidied(fields[k], Tidy(fields[k]))
      {
        TidyTidies(fields[k]);
      }
    case Array(items) => TidyItemsTidies(items);
    case _ =>
  }

  lemma VoidIsUnassigned(fields: Document)
    ensures forall k | k in fields :: Unassigned(fields[k]) <==> Void(fields[k])
  {
    forall k | k in fields && fields[k].Array?
      ensures Unassigned(fields[k]) <==> Void(fields[k])
    {
      var items := fields[k].items;
      assert forall i | 0 <= i < |items| :: items[i] in items;
    }
  }

  lemma {:induction false} TidyItemsTidies(items: seq<Value>)
    ensures TidiedItems(items, TidyItems(items))
    decreases items, 1
  {
    if items != [] {
      TidyItemsTidies(items[1..]);
      if items[0].Object? {
        TidyTidies(items[0]);
      }
      if !Blank(items[0]) {
        var first := if items[0].Object? then Tidy(items[0]) else items[0];
        assert TidyItems(items) == [first] + TidyItems(items[1..]);
        var out := TidyItems(items);
        assert out[0] == first && out[1..] == TidyItems(items[1..]);
      } else {
        assert TidyItems(items) == TidyItems(items[1..]);
      }
    }
  }

  // ---------- primary values ----------

  predicate Marked(v: Value) { v.Object? && "primary" in v.fields && v.fields["primary"] == Bool(true) }

  /** The element with its mark taken back, if it has one. */
  predicate Unmarked(v: Value, w: Value) {
    if v.Object? && "primary" in v.fields then w == Object(v.fields["primary" := Bool(false)]) else w == v
  }

  /** The last marked element keeps its mark and every other loses it; without a marked one nothing changes. */
  ghost predicate LastKept(items: seq<Value>, out: seq<Value>) {
    && |out| == |items|
    && ((forall x | x in items :: !Marked(x)) ==> out == items)
    && forall n | 0 <= n < |items| && Marked(items[n]) && (forall j | n < j < |items| :: !Marked(items[j])) ::
         out[n] == items[n] && forall j | 0 <= j < |items| && j != n :: Unmarked(items[j], out[j])
  }

  /** Objects are balanced inside, and then one element of each array stays primary. */
  ghost predicate Settled(v: Value, w: Value)
    decreases v
  {
    match v
    case Object(fields) =>
      w.Object? && w.fields.Keys == fields.Keys && forall k | k in fields && k in w.fields ::
        Settled(fields[k], w.fields[k])
    case Array(items) =>
      w.Array? && exists inner: seq<Value> ::
        && |inner| == |items|
        && (forall i | 0 <= i < |items| && i < |inner| ::
              if items[i].Object? then Settled(items[i], inner[i]) else inner[i] == items[i])
        && LastKept(inner, w.items)
    case _ => w == v
  }

  lemma OnePrimaryKeepsLast(items: seq<Value>)
    ensures LastKept(items, OnePrimary(items))
  {
    var n := AfterLastPrimary(items);
    if n == 0 {
      assert forall x | x in items :: !IsPrimary(x);
    } else {
      assert items[n - 1] in items;
    }
  }

  lemma SettledArray(items: seq<Value>, inner: seq<Value>, out: seq<Value>)
    requires |inner| == |items| && LastKept(inner, out)
    requires forall i | 0 <= i < |items| ::
      if items[i].Object? then Settled(items[i], inner[i]) else inner[i] == items[i]
    ensures Settled(Array(items), Array(out))
  {
    hide LastKept;
  }

  lemma {:induction false} BalanceSettles(v: Value)
    ensures Settled(v, Balance(v))
    decreases v
  {
    match v
    case Object(fields) =>
      forall k | k in fields
        ensures Settled(fields[k], Balance(fields[k]))
      {
        BalanceSettles(fields[k]);
      }
    case Array(items) =>
      var inner := seq(|items|, i requires 0 <= i < |items| =>
        if items[i].Object? then Balance(items[i]) else items[i]);
      forall i | 0 <= i < |items| && items[i].Object?
        ensures Settled(items[i], inner[i])
      {
        BalanceSettles(items[i]);
      }
      OnePrimaryKeepsLast(inner);
      hide LastKept, OnePrimary, Settled;
      SettledArray(items, inner, OnePrimary(inner));
    case _ =>
  }

  // ---------- Users ----------

  const TEXTS := ["externalId", "userName", "displayName", "nickName", "profileUrl", "title", "userType",
                  "preferredLanguage", "locale", "timezone"]
  const PLURALS := ["emails", "phoneNumbers", "ims", "photos", "entitlements", "roles", "x509Certificates"]

  predicate IsText(v: Value, maximum: nat) { v.Text? && ValidString(v.text, maximum) }

  /** An object of texts under some of these names. */
  predicate TextsUnder(v: Value, names: seq<string>) {
    && v.Object? && |v.fields| <= |names|
    && forall k | k in v.fields :: k in names && IsText(v.fields[k], 65536)
  }

  /** At most a thousand objects of texts under these names, and a mark. */
  predicate ManyUnder(v: Value, names: seq<string>) {
    && v.Array? && |v.items| <= 1000
    && forall x | x in v.items ::
         && x.Object? && |x.fields| <= |names| + 1
         && forall k | k in x.fields ::
              if k == "primary" then x.fields[k].Bool? else k in names && IsText(x.fields[k], 65536)
  }

  predicate BelongsToExtension(h: Host, def: Definition, k: string) {
    exists i | 0 <= i < |def.extensions| :: h.lower(def.extensions[i].schema) == h.lower(k)
  }

  /** What a User may hold under this name. */
  predicate UserHolds(h: Host, def: Definition, k: string, v: Value) {
    if k == "userName" then v.Text?
    else if k in TEXTS then IsText(v, 65536)
    else if k == "schemas" then v.Array?
    else if k == "active" then v.Bool?
    else if k == "name" then
      TextsUnder(v, ["formatted", "familyName", "givenName", "middleName", "honorificPrefix", "honorificSuffix"])
    else if k in PLURALS then ManyUnder(v, ["value", "display", "type", "$ref"])
    else if k == "addresses" then
      ManyUnder(v, ["formatted", "streetAddress", "locality", "region", "postalCode", "country", "type"])
    else BelongsToExtension(h, def, k)
  }

  /** The name is a text within the limit that is trimmed and can be prepared. */
  predicate HasName(h: Host, d: Document) {
    && "userName" in d && d["userName"].Text? && d["userName"].text != ""
    && ValidString(d["userName"].text, 1024) && h.trim(d["userName"].text) == d["userName"].text
    && h.prepare(d["userName"].text).Some? && h.prepare(d["userName"].text).value != ""
  }

  /** One name at a time, the checks at the top level and those of the details together. */
  predicate PassesAt(h: Host, def: Definition, k: string, v: Value) {
    && (if k in USER_KINDS then HasKind(v, USER_KINDS[k]) else BelongsToExtension(h, def, k))
    && (k in TEXTS && k != "userName" ==> IsText(v, 65536))
    && (k == "active" ==> v.Bool?)
    && (k == "name" ==> TextsUnder(v, ["formatted", "familyName", "givenName", "middleName", "honorificPrefix",
                                       "honorificSuffix"]))
    && (k in PLURALS ==> ManyUnder(v, ["value", "display", "type", "$ref"]))
    && (k == "addresses" ==> ManyUnder(v, ["formatted", "streetAddress", "locality", "region", "postalCode", "country",
                                           "type"]))
  }

  lemma ShapesAgree(v: Value, names: seq<string>)
    ensures StringObject(v, names) <==> TextsUnder(v, names)
    ensures MultiValue(v, names) <==> ManyUnder(v, names)
  {
    hide ValidString;
    if v.Array? {
      assert forall i | 0 <= i < |v.items| :: v.items[i] in v.items;
    }
  }

  lemma UserKinds(k: string)
    ensures k in USER_KINDS <==>
      k in TEXTS || k in PLURALS || k == "schemas" || k == "active" || k == "name" || k == "addresses"
    ensures k in TEXTS ==> USER_KINDS[k] == "string"
    ensures k in PLURALS || k == "schemas" || k == "addresses" ==> USER_KINDS[k] == "array"
    ensures k == "active" ==> USER_KINDS[k] == "boolean"
    ensures k == "name" ==> USER_KINDS[k] == "object"
  {
  }

  lemma HoldsIsPassing(h: Host, def: Definition, k: string, v: Value)
    ensures UserHolds(h, def, k, v) <==> PassesAt(h, def, k, v)
  {
    UserKinds(k);
    NamesApart(k);
    ShapesAreKinds(v);
    hide TEXTS, PLURALS, USER_KINDS, IsText, TextsUnder, ManyUnder, BelongsToExtension;
  }

  lemma ShapesAreKinds(v: Value)
    ensures IsText(v, 65536) ==> v.Text?
    ensures forall names :: (TextsUnder(v, names) ==> v.Object?) && (ManyUnder(v, names) ==> v.Array?)
  {
  }

  lemma NamesApart(k: string)
    ensures "userName" in TEXTS
    ensures k in TEXTS ==> k !in PLURALS && k != "schemas" && k != "active" && k != "name" && k != "addresses"
    ensures k in PLURALS ==> k != "schemas" && k != "active" && k != "name" && k != "addresses"
  {
  }

  /** A User passes exactly with a name and with what it may hold under every name; its name is prepared. */
  lemma UsersAreChecked(h: Host, def: Definition, d: Document)
    ensures ValidUser(h, def, d) ==
      if HasName(h, d) && forall k | k in d :: UserHolds(h, def, k, d[k])
      then Some(d["userName" := Value.Text(h.prepare(d["userName"].text).value)]) else None
  {
    hide ValidString, UserHolds, PassesAt, UserDetails, TopLevel;
    forall k | k in d
      ensures UserHolds(h, def, k, d[k]) <==> PassesAt(h, def, k, d[k])
    {
      HoldsIsPassing(h, def, k, d[k]);
    }
    if HasName(h, d) {
      var named := d["userName" := Value.Text(h.prepare(d["userName"].text).value)];
      AllPass(h, def, d, named);
      NameIsAcceptable(h, d);
      assert (forall k | k in d :: UserHolds(h, def, k, d[k])) <==> (forall k | k in d :: PassesAt(h, def, k, d[k]));
      assert ValidUser(h, def, d) ==
        if TopLevel(h, def, d, USER_KINDS) && UserDetails(named) then Some(named) else None;
    } else {
      NameIsAcceptable(h, d);
      assert ValidUser(h, def, d) == None;
    }
  }

  lemma NameIsAcceptable(h: Host, d: Document)
    ensures HasName(h, d) <==>
      && AcceptableName(h, d) && h.prepare(d["userName"].text).Some? && h.prepare(d["userName"].text).value != ""
  {
    hide ValidString;
  }

  lemma AllPass(h: Host, def: Definition, d: Document, named: Document)
    requires "userName" in d && d["userName"].Text? && "userName" in named && named["userName"].Text?
    requires named == d["userName" := named["userName"]]
    ensures TopLevel(h, def, d, USER_KINDS) && UserDetails(named) <==> forall k | k in d :: PassesAt(h, def, k, d[k])
  {
    hide ValidString, USER_KINDS, TEXTS, PLURALS;
    DetailsAre(d, named);
    KindsAre(h, def, d);
    hide UserDetails, TopLevel, IsText, TextsUnder, ManyUnder;
  }

  lemma KindsAre(h: Host, def: Definition, d: Document)
    ensures TopLevel(h, def, d, USER_KINDS) <==>
      forall k | k in d :: if k in USER_KINDS then HasKind(d[k], USER_KINDS[k]) else BelongsToExtension(h, def, k)
  {
    hide USER_KINDS;
  }

  lemma DetailsAre(d: Document, named: Document)
    requires "userName" in d && "userName" in named && named == d["userName" := named["userName"]]
    ensures UserDetails(named) <==>
      forall k | k in d ::
        && (k in TEXTS && k != "userName" ==> IsText(d[k], 65536))
        && (k == "active" ==> d[k].Bool?)
        && (k == "name" ==> TextsUnder(d[k], ["formatted", "familyName", "givenName", "middleName", "honorificPrefix",
                                              "honorificSuffix"]))
        && (k in PLURALS ==> ManyUnder(d[k], ["value", "display", "type", "$ref"]))
        && (k == "addresses" ==> ManyUnder(d[k], ["formatted", "streetAddress", "locality", "region", "postalCode",
                                                  "country", "type"]))
  {
    hide ValidString, StringObject, MultiValue, TextsUnder, ManyUnder, OptionalStrings, TEXTS, IsText, PLURALS;
    OptionalTexts(named);
    NamesApart("userName");
    ShapesOf(d, "name", ["formatted", "familyName", "givenName", "middleName", "honorificPrefix", "honorificSuffix"]);
    ShapesOf(d, "addresses", ["formatted", "streetAddress", "locality", "region", "postalCode", "country", "type"]);
    assert forall k | k in d && k != "userName" :: named[k] == d[k];
    PluralsOf(d, named);
  }

  lemma ShapesOf(d: Document, k: string, names: seq<string>)
    ensures k in d ==> (StringObject(d[k], names) <==> TextsUnder(d[k], names))
    ensures k in d ==> (MultiValue(d[k], names) <==> ManyUnder(d[k], names))
  {
    if k in d {
      ShapesAgree(d[k], names);
    }
  }

  lemma PluralsOf(d: Document, named: Document)
    requires forall k | k in d && k != "userName" :: k in named && named[k] == d[k]
    requires forall k | k in named && k != "userName" :: k in d
    ensures (forall n | n in ["emails", "phoneNumbers", "ims", "photos", "entitlements", "roles", "x509Certificates"] ::
               n in named ==> MultiValue(named[n], ["value", "display", "type", "$ref"])) <==>
      forall k | k in d && k in PLURALS :: ManyUnder(d[k], ["value", "display", "type", "$ref"])
  {
    hide MultiValue, ManyUnder;
    assert "userName" !in PLURALS;
    forall k | k in d
      ensures MultiValue(d[k], ["value", "display", "type", "$ref"]) <==>
        ManyUnder(d[k], ["value", "display", "type", "$ref"])
    {
      ShapesAgree(d[k], ["value", "display", "type", "$ref"]);
    }
  }

  lemma OptionalTexts(named: Document)
    ensures OptionalStrings(named, ["externalId", "displayName", "nickName", "profileUrl", "title", "userType",
                                    "preferredLanguage", "locale", "timezone"]) <==>
      forall k | k in named && k in TEXTS && k != "userName" :: IsText(named[k], 65536)
  {
    hide ValidString;
    var names := ["externalId", "displayName", "nickName", "profileUrl", "title", "userType", "preferredLanguage",
                  "locale", "timezone"];
    assert forall k :: k in names <==> k in TEXTS && k != "userName";
    forall k
      ensures OptionalString(named, k, MAXIMUM_STRING_BYTES).Some? <==> (k in named ==> IsText(named[k], 65536))
    {
    }
  }

  // ---------- Groups and the enterprise extension ----------

  /** What a Group may hold under this name; members are already without their display names. */
  predicate GroupHolds(h: Host, def: Definition, k: string, v: Value) {
    if k == "displayName" then IsText(v, 65536) && v.text != "" && h.trim(v.text) == v.text
    else if k == "externalId" then IsText(v, 65536)
    else if k == "schemas" then v.Array?
    else if k == "members" then
      && ManyUnder(v, ["value", "$ref", "display", "type"])
      && forall x | x in v.items ::
           x.Object? && "value" in x.fields && IsText(x.fields["value"], 1024) && x.fields["value"].text != ""
    else BelongsToExtension(h, def, k)
  }

  /** The same members, each without its display name. */
  function Undisplayed(d: Document): Document {
    if "members" !in d || !d["members"].Array? then d
    else
      var items := d["members"].items;
      d["members" := Array(seq(|items|, i requires 0 <= i < |items| =>
        if items[i].Object? then Object(map k | k in items[i].fields && k != "display" :: items[i].fields[k])
        else items[i]))]
  }

  /** A Group passes exactly with a display name and, once its members lost theirs, with what it may hold under
      every name. */
  lemma GroupsAreChecked(h: Host, def: Definition, d: Document)
    ensures ValidGroup(h, def, d) ==
      if "displayName" in d && forall k | k in d :: GroupHolds(h, def, k, Undisplayed(d)[k])
      then Some(Undisplayed(d)) else None
  {
    hide ValidString;
    var plain := Undisplayed(d);
    if "members" in d && d["members"].Array? {
      DisplaysGo(d);
      ShapesAgree(plain["members"], ["value", "$ref", "display", "type"]);
      GroupPasses(h, def, d, plain);
    } else {
      GroupPasses(h, def, d, plain);
    }
  }

  lemma DisplaysGo(d: Document)
    requires "members" in d && d["members"].Array?
    ensures Undisplayed(d) == d["members" := Array(WithoutDisplay(d["members"].items))]
  {
    var items := d["members"].items;
    forall i | 0 <= i < |items| && items[i].Object?
      ensures items[i].fields - {"display"} == map k | k in items[i].fields && k != "display" :: items[i].fields[k]
    {
    }
    assert Undisplayed(d)["members"].items == WithoutDisplay(items);
  }

  lemma GroupPasses(h: Host, def: Definition, d: Document, plain: Document)
    requires plain.Keys == d.Keys && forall k | k in d && k != "members" :: plain[k] == d[k]
    requires "members" in d ==> (d["members"].Array? <==> plain["members"].Array?)
    requires "members" in d && !d["members"].Array? ==> plain["members"] == d["members"]
    ensures && TopLevel(h, def, d, GROUP_KINDS)
            && RequiredString(d, "displayName", MAXIMUM_STRING_BYTES)
            && h.trim(d["displayName"].text) == d["displayName"].text
            && OptionalString(d, "externalId", MAXIMUM_STRING_BYTES).Some?
            && GroupDetails(plain)
       <==> "displayName" in d && forall k | k in d :: GroupHolds(h, def, k, plain[k])
  {
    assert forall k :: k in GROUP_KINDS <==> k in ["schemas", "externalId", "displayName", "members"];
    GroupKinds(h, def, d);
    if "members" in plain {
      MembersPass(plain);
    }
    hide ValidString, ManyUnder, MultiValue, TopLevel, GroupDetails, GROUP_KINDS, BelongsToExtension;
    assert RequiredString(d, "displayName", MAXIMUM_STRING_BYTES) <==>
      "displayName" in d && IsText(d["displayName"], 65536) && d["displayName"].text != "";
    assert OptionalString(d, "externalId", MAXIMUM_STRING_BYTES).Some? <==>
      ("externalId" in d ==> IsText(d["externalId"], 65536));
  }

  lemma GroupKinds(h: Host, def: Definition, d: Document)
    ensures TopLevel(h, def, d, GROUP_KINDS) <==>
      forall k | k in d ::
        if k == "schemas" || k == "members" then d[k].Array?
        else if k == "externalId" || k == "displayName" then d[k].Text?
        else BelongsToExtension(h, def, k)
  {
  }

  lemma MembersPass(plain: Document)
    requires "members" in plain
    ensures GroupDetails(plain) <==>
      && ManyUnder(plain["members"], ["value", "$ref", "display", "type"])
      && forall x | x in plain["members"].items ::
           x.Object? && "value" in x.fields && IsText(x.fields["value"], 1024) && x.fields["value"].text != ""
  {
    hide ValidString, ManyUnder, MultiValue;
    ShapesAgree(plain["members"], ["value", "$ref", "display", "type"]);
    ManyAreObjects(plain["members"], ["value", "$ref", "display", "type"]);
  }

  lemma ManyAreObjects(v: Value, names: seq<string>)
    ensures ManyUnder(v, names) ==> v.Array? && forall x | x in v.items :: x.Object?
  {
  }

  /** The enterprise extension passes exactly with texts under its names and a manager of texts, who loses the
      display name. */
  lemma EnterpriseIsChecked(d: Document)
    ensures var manager := if "manager" in d && d["manager"].Object?
                           then Object(map k | k in d["manager"].fields && k != "displayName" :: d["manager"].fields[k])
                           else Null;
      ValidateEnterprise(d) ==
        if forall k | k in d ::
             if k == "manager" then TextsUnder(manager, ["value", "$ref"])
             else k in ["employeeNumber", "costCenter", "organization", "division", "department"] && IsText(d[k], 65536)
        then Some(if "manager" in d then d["manager" := manager] else d) else None
  {
    hide ValidString;
    if "manager" in d && d["manager"].Object? {
      var fields := d["manager"].fields;
      assert fields - {"displayName"} == map k | k in fields && k != "displayName" :: fields[k];
      ShapesAgree(Object(fields - {"displayName"}), ["value", "$ref"]);
    }
    hide TextsUnder, StringObject;
  }

  // ---------- the whole normalization ----------

  /** Every object of an extension is purged, and nothing else changes. */
  ghost predicate ExtensionsPurged(d: Document, e: Document, extensions: seq<Extension>) {
    && e.Keys == d.Keys
    && forall k | k in d && k in e ::
         && ((forall i | 0 <= i < |extensions| :: extensions[i].schema != k) || !d[k].Object? ==> e[k] == d[k])
         && forall i | 0 <= i < |extensions| && extensions[i].schema == k && d[k].Object? ::
              e[k].Object? && Purged(d[k].fields, e[k].fields, extensions[i].attributes)
  }

  /** Extensions have different schemas, and their attributes different names. */
  ghost predicate ProperExtensions(extensions: seq<Extension>) {
    && (forall i | 0 <= i < |extensions| :: Mutability.DistinctNames(extensions[i].attributes))
    && forall i, j | 0 <= i < j < |extensions| :: extensions[i].schema != extensions[j].schema
  }

  lemma {:induction false} StripExtensionsPurges(d: Document, extensions: seq<Extension>)
    requires ProperExtensions(extensions)
    ensures ExtensionsPurged(d, StripExtensions(d, extensions), extensions)
    decreases |extensions|
  {
    hide Purged, Strip, Mutability.DistinctNames;
    if extensions != [] {
      var e, rest := extensions[0], extensions[1..];
      var once := if e.schema in d && d[e.schema].Object?
                  then d[e.schema := Object(Strip(d[e.schema].fields, e.attributes))] else d;
      StripExtensionsPurges(once, rest);
      if e.schema in d && d[e.schema].Object? {
        StripPurges(d[e.schema].fields, e.attributes);
      }
      assert forall i | 1 <= i < |extensions| :: extensions[i] == rest[i - 1];
      hide StripExtensions;
      OneExtensionMore(d, once, StripExtensions(once, rest), extensions);
    }
  }

  lemma OneExtensionMore(d: Document, once: Document, out: Document, extensions: seq<Extension>)
    requires ProperExtensions(extensions) && extensions != [] && ExtensionsPurged(once, out, extensions[1..])
    requires once.Keys == d.Keys && forall k | k in d && k != extensions[0].schema :: once[k] == d[k]
    requires var k := extensions[0].schema;
      k in d ==> if d[k].Object? then once[k].Object? && Purged(d[k].fields, once[k].fields, extensions[0].attributes)
                 else once[k] == d[k]
    ensures ExtensionsPurged(d, out, extensions)
  {
    hide Purged, Mutability.DistinctNames;
    var rest, schema := extensions[1..], extensions[0].schema;
    assert forall i | 0 <= i < |rest| :: rest[i] == extensions[i + 1] && rest[i].schema != schema;
    assert schema in d ==> out[schema] == once[schema];
    forall k | k in d
      ensures (forall i | 0 <= i < |extensions| :: extensions[i].schema != k) || !d[k].Object? ==> out[k] == d[k]
      ensures forall i | 0 <= i < |extensions| && extensions[i].schema == k && d[k].Object? ::
        out[k].Object? && Purged(d[k].fields, out[k].fields, extensions[i].attributes)
    {
      if k != schema {
        assert forall i | 0 <= i < |extensions| && extensions[i].schema == k :: i > 0 && rest[i - 1] == extensions[i];
      } else {
        assert forall i | 0 <= i < |extensions| && extensions[i].schema == k :: i == 0;
      }
    }
  }

  /** What clients may not write goes, then what is unassigned, and then all primary marks but one: these are the
      documents between the steps. */
  lemma NormalizedMeans(def: Definition, d: Document) returns (own: Document, purged: Document, tidied: Document)
    requires Mutability.DistinctNames(def.attributes) && ProperExtensions(def.extensions)
    ensures Purged(map k | k in d && k !in ["id", "meta", "groups"] :: d[k], own, def.attributes)
    ensures ExtensionsPurged(own, purged, def.extensions)
    ensures forall k :: k in tidied <==> k in purged && (k == "schemas" || !Void(purged[k]))
    ensures forall k | k in tidied && k in purged ::
      if k == "schemas" then tidied[k] == purged[k] else Tidied(purged[k], tidied[k])
    ensures Settled(Object(tidied), Object(Normalized(def, d)))
  {
    hide Purged, Strip, StripExtensions, Tidy, Balance, Settled, Mutability.DistinctNames;
    var a := d - {"id", "meta", "groups"};
    assert a == map k | k in d && k !in ["id", "meta", "groups"] :: d[k];
    own := Strip(a, def.attributes);
    StripPurges(a, def.attributes);
    purged := StripExtensions(own, def.extensions);
    StripExtensionsPurges(own, def.extensions);
    tidied := TidyDocument(purged);
    VoidIsUnassigned(purged);
    forall k | k in purged
      ensures Tidied(purged[k], Tidy(purged[k]))
    {
      TidyTidies(purged[k]);
    }
    BalanceSettles(Object(tidied));
    BalanceIsObject(tidied);
  }

  lemma BalanceIsObject(d: Document)
    ensures Balance(Object(d)).Object?
  {
  }
}
