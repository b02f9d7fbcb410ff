/** The decoder accepts exactly the bounded documents without case-equivalent names, and reads
    back every document it could have been given. */
module JsonLanguage {
  import opened Values
  import opened Json

  // ---------- written documents ----------

  /** A JSON text: names as they are written, in the order they are written. */
  datatype Text = Plain(value: Value) | List(items: seq<Text>) | Record(entries: seq<Entry>)

  datatype Entry = Entry(key: string, value: Text)

  function Tokens(t: Text): seq<JsonToken>
    decreases t
  {
    match t
    case Plain(v) => [Scalar(v)]
    case List(items) => [BeginArray] + ItemTokens(items) + [EndArray]
    case Record(entries) => [BeginObject] + EntryTokens(entries) + [EndObject]
  }

  function ItemTokens(items: seq<Text>): seq<JsonToken>
    decreases items
  {
    if items == [] then [] else Tokens(items[0]) + ItemTokens(items[1..])
  }

  function EntryTokens(entries: seq<Entry>): seq<JsonToken>
    decreases entries
  {
    if entries == [] then []
    else [Scalar(Value.Text(entries[0].key))] + Tokens(entries[0].value) + EntryTokens(entries[1..])
  }

  /** The value a text denotes, names in their known spelling. */
  function Meaning(c: Rules, t: Text): Value
    decreases t
  {
    match t
    case Plain(v) => v
    case List(items) => Array(ItemMeanings(c, items))
    case Record(entries) => Object(Fill(c, map[], entries))
  }

  function ItemMeanings(c: Rules, items: seq<Text>): seq<Value>
    decreases items
  {
    if items == [] then [] else [Meaning(c, items[0])] + ItemMeanings(c, items[1..])
  }

  function Fill(c: Rules, result: Document, entries: seq<Entry>): Document
    decreases entries
  {
    if entries == [] then result
    else
      var key := entries[0].key;
      var name := if c.lower(key) in c.canonical then c.canonical[c.lower(key)] else key;
      Fill(c, result[name := Meaning(c, entries[0].value)], entries[1..])
  }

  /** How many values a text holds, itself included. */
  function Count(t: Text): nat
    decreases t
  {
    match t
    case Plain(_) => 1
    case List(items) => 1 + ItemCount(items)
    case Record(entries) => 1 + EntryCount(entries)
  }

  function ItemCount(items: seq<Text>): nat
    decreases items
  {
    if items == [] then 0 else Count(items[0]) + ItemCount(items[1..])
  }

  function EntryCount(entries: seq<Entry>): nat
    decreases entries
  {
    if entries == [] then 0 else Count(entries[0].value) + EntryCount(entries[1..])
  }

  /** Names are non-empty and distinct once lower-cased, and nothing is nested below the limit. */
  predicate Admissible(c: Rules, t: Text, depth: nat)
    decreases t
  {
    && depth <= c.depth
    && match t
       case Plain(v) => !v.Array? && !v.Object?
       case List(items) => AdmissibleItems(c, items, depth)
       case Record(entries) => AdmissibleEntries(c, entries, depth, {})
  }

  predicate AdmissibleItems(c: Rules, items: seq<Text>, depth: nat)
    decreases items
  {
    items == [] || (Admissible(c, items[0], depth + 1) && AdmissibleItems(c, items[1..], depth))
  }

  predicate AdmissibleEntries(c: Rules, entries: seq<Entry>, depth: nat, seen: set<string>)
    decreases entries
  {
    entries == [] ||
    (&& entries[0].key != "" && c.lower(entries[0].key) !in seen
     && Admissible(c, entries[0].value, depth + 1)
     && AdmissibleEntries(c, entries[1..], depth, seen + {c.lower(entries[0].key)}))
  }

  // ---------- the decoder reads every admissible text ----------

  /** Scalar tokens of the lexer hold scalar values. */
  ghost predicate Lexical(ts: seq<JsonToken>) {
    forall i | 0 <= i < |ts| :: ts[i].Scalar? ==> !ts[i].value.Array? && !ts[i].value.Object?
  }

  lemma {:induction false} ReadsText(c: Rules, t: Text, rest: seq<JsonToken>, depth: nat, nodes: nat)
    requires Admissible(c, t, depth) && nodes + Count(t) <= c.nodes
    ensures DecodeValue(c, Tokens(t) + rest, depth, nodes) == Done(Meaning(c, t), rest, nodes + Count(t))
    decreases t, 0
  {
    hide DecodeItems, DecodeFields, AdmissibleItems, AdmissibleEntries, ItemMeanings;
    var ts := Tokens(t) + rest;
    match t
    case Plain(v) =>
      assert ts[1..] == rest;
    case List(items) =>
      ReadsItems(c, items, rest, depth, nodes + 1, []);
      assert ts[0] == BeginArray && ts[1..] == ItemTokens(items) + ([EndArray] + rest);
      assert [] + ItemMeanings(c, items) == ItemMeanings(c, items);
    case Record(entries) =>
      ReadsEntries(c, entries, rest, depth, nodes + 1, map[], {});
      assert ts[1..] == EntryTokens(entries) + ([EndObject] + rest);
  }

  lemma TokensStart(t: Text)
    ensures Tokens(t) != [] && !Tokens(t)[0].EndArray? && !Tokens(t)[0].EndObject?
  {
  }

  lemma {:induction false} ReadsItems(c: Rules, items: seq<Text>, rest: seq<JsonToken>, depth: nat, nodes: nat,
                                      result: seq<Value>)
    requires AdmissibleItems(c, items, depth) && nodes + ItemCount(items) <= c.nodes
    ensures DecodeItems(c, ItemTokens(items) + ([EndArray] + rest), depth, nodes, result)
         == Done(Array(result + ItemMeanings(c, items)), rest, nodes + ItemCount(items))
    decreases items, 0
  {
    var ts := ItemTokens(items) + ([EndArray] + rest);
    if items == [] {
      assert ts == [EndArray] + rest && ts[1..] == rest;
      assert result + ItemMeanings(c, items) == result;
    } else {
      var tail := ItemTokens(items[1..]) + ([EndArray] + rest);
      assert ts == Tokens(items[0]) + tail;
      TokensStart(items[0]);
      assert ts[0] == Tokens(items[0])[0];
      ReadsText(c, items[0], tail, depth + 1, nodes);
      ReadsItems(c, items[1..], rest, depth, nodes + Count(items[0]), result + [Meaning(c, items[0])]);
      assert result + [Meaning(c, items[0])] + ItemMeanings(c, items[1..]) == result + ItemMeanings(c, items);
    }
  }

  lemma {:induction false} ReadsEntries(c: Rules, entries: seq<Entry>, rest: seq<JsonToken>, depth: nat, nodes: nat,
                                        result: Document, seen: set<string>)
    requires AdmissibleEntries(c, entries, depth, seen) && nodes + EntryCount(entries) <= c.nodes
    ensures DecodeFields(c, EntryTokens(entries) + ([EndObject] + rest), depth, nodes, result, seen)
         == Done(Object(Fill(c, result, entries)), rest, nodes + EntryCount(entries))
    decreases entries, 0
  {
    var ts := EntryTokens(entries) + ([EndObject] + rest);
    if entries == [] {
      assert ts == [EndObject] + rest && ts[1..] == rest;
    } else {
      var e := entries[0];
      var tail := EntryTokens(entries[1..]) + ([EndObject] + rest);
      assert ts == [Scalar(Value.Text(e.key))] + (Tokens(e.value) + tail);
      assert ts[1..] == Tokens(e.value) + tail;
      ReadsText(c, e.value, tail, depth + 1, nodes);
      ReadsEntries(c, entries[1..], rest, depth, nodes + Count(e.value), result[Admit(c, e.key) := Meaning(c, e.value)],
                   seen + {c.lower(e.key)});
    }
  }

  // ---------- the decoder accepts nothing else ----------

  lemma {:induction false} TextWasRead(c: Rules, ts: seq<JsonToken>, depth: nat, nodes: nat) returns (t: Text)
    requires Lexical(ts) && DecodeValue(c, ts, depth, nodes).Done?
    ensures var d := DecodeValue(c, ts, depth, nodes);
      && ts == Tokens(t) + d.rest && Lexical(d.rest) && Admissible(c, t, depth)
      && d.value == Meaning(c, t) && d.nodes == nodes + Count(t) <= c.nodes
    decreases |ts|, 1
  {
    hide DecodeFields, DecodeItems, Fill, ItemMeanings, ItemTokens, EntryTokens, AdmissibleItems, AdmissibleEntries,
         ItemCount, EntryCount;
    match ts[0]
    case Scalar(v) =>
      t := Plain(v);
    case BeginObject =>
      var entries := EntriesWereRead(c, ts[1..], depth, nodes + 1, map[], {});
      t := Record(entries);
    case BeginArray =>
      var items := ItemsWereRead(c, ts[1..], depth, nodes + 1, []);
      t := List(items);
  }

  lemma {:induction false} ItemsWereRead(c: Rules, ts: seq<JsonToken>, depth: nat, nodes: nat, result: seq<Value>)
    returns (items: seq<Text>)
    requires Lexical(ts) && nodes <= c.nodes && DecodeItems(c, ts, depth, nodes, result).Done?
    ensures var d := DecodeItems(c, ts, depth, nodes, result);
      && ts == ItemTokens(items) + [EndArray] + d.rest && Lexical(d.rest) && AdmissibleItems(c, items, depth)
      && d.value == Array(result + ItemMeanings(c, items)) && d.nodes == nodes + ItemCount(items) <= c.nodes
    decreases |ts|, 2
  {
    if ts[0].EndArray? {
      items := [];
      assert result + ItemMeanings(c, items) == result;
    } else {
      var first := TextWasRead(c, ts, depth + 1, nodes);
      var d := DecodeValue(c, ts, depth + 1, nodes);
      var more := ItemsWereRead(c, d.rest, depth, d.nodes, result + [d.value]);
      items := [first] + more;
      assert result + [d.value] + ItemMeanings(c, more) == result + ItemMeanings(c, items);
    }
  }

  lemma {:induction false} EntriesWereRead(c: Rules, ts: seq<JsonToken>, depth: nat, nodes: nat, result: Document,
                                           seen: set<string>)
    returns (entries: seq<Entry>)
    requires Lexical(ts) && nodes <= c.nodes && DecodeFields(c, ts, depth, nodes, result, seen).Done?
    ensures var d := DecodeFields(c, ts, depth, nodes, result, seen);
      && ts == EntryTokens(entries) + [EndObject] + d.rest && Lexical(d.rest)
        && AdmissibleEntries(c, entries, depth, seen)
      && d.value == Object(Fill(c, result, entries)) && d.nodes == nodes + EntryCount(entries) <= c.nodes
    decreases |ts|, 0
  {
    if ts[0].EndObject? {
      entries := [];
    } else {
      var key := ts[0].value.text;
      var first := TextWasRead(c, ts[1..], depth + 1, nodes);
      var d := DecodeValue(c, ts[1..], depth + 1, nodes);
      var more := EntriesWereRead(c, d.rest, depth, d.nodes, result[Admit(c, key) := d.value], seen + {c.lower(key)});
      entries := [Entry(key, first)] + more;
    }
  }

  // ---------- texts are unambiguous ----------

  predicate Scalars(t: Text)
    decreases t
  {
    match t
    case Plain(v) => !v.Array? && !v.Object?
    case List(items) => ScalarItems(items)
    case Record(entries) => ScalarEntries(entries)
  }

  predicate ScalarItems(items: seq<Text>)
    decreases items
  {
    items == [] || (Scalars(items[0]) && ScalarItems(items[1..]))
  }

  predicate ScalarEntries(entries: seq<Entry>)
    decreases entries
  {
    entries == [] || (Scalars(entries[0].value) && ScalarEntries(entries[1..]))
  }

  /** Two texts written at the start of the same tokens are the same text. */
  lemma {:induction false} SameText(t: Text, u: Text, rest: seq<JsonToken>, others: seq<JsonToken>)
    requires Tokens(t) + rest == Tokens(u) + others
    ensures t == u && rest == others
    decreases t, 0
  {
    var ts := Tokens(t) + rest;
    assert ts[0] == Tokens(t)[0] == Tokens(u)[0];
    match t
    case Plain(_) =>
      assert ts[1..] == rest == others;
    case List(items) =>
      assert ts[1..] == ItemTokens(items) + ([EndArray] + rest) == ItemTokens(u.items) + ([EndArray] + others);
      SameItems(items, u.items, rest, others);
    case Record(entries) =>
      assert ts[1..] == EntryTokens(entries) + ([EndObject] + rest) == EntryTokens(u.entries) + ([EndObject] + others);
      SameEntries(entries, u.entries, rest, others);
  }

  lemma {:induction false} SameItems(items: seq<Text>, others: seq<Text>, rest: seq<JsonToken>, more: seq<JsonToken>)
    requires ItemTokens(items) + ([EndArray] + rest) == ItemTokens(others) + ([EndArray] + more)
    ensures items == others && rest == more
    decreases items, 0
  {
    var ts := ItemTokens(items) + ([EndArray] + rest);
    if items == [] {
      assert ts[0] == EndArray && ts[1..] == rest;
    } else {
      TokensStart(items[0]);
      assert ts[0] == Tokens(items[0])[0];
      assert others != [];
      var a, b := ItemTokens(items[1..]) + ([EndArray] + rest), ItemTokens(others[1..]) + ([EndArray] + more);
      assert ts == Tokens(items[0]) + a == Tokens(others[0]) + b;
      SameText(items[0], others[0], a, b);
      SameItems(items[1..], others[1..], rest, more);
    }
  }

  lemma {:induction false} SameEntries(entries: seq<Entry>, others: seq<Entry>, rest: seq<JsonToken>,
                                       more: seq<JsonToken>)
    requires EntryTokens(entries) + ([EndObject] + rest) == EntryTokens(others) + ([EndObject] + more)
    ensures entries == others && rest == more
    decreases entries, 0
  {
    var ts := EntryTokens(entries) + ([EndObject] + rest);
    if entries == [] {
      assert ts[0] == EndObject && ts[1..] == rest;
    } else {
      assert ts[0] == Scalar(Value.Text(entries[0].key));
      assert others != [];
      var a, b := EntryTokens(entries[1..]) + ([EndObject] + rest), EntryTokens(others[1..]) + ([EndObject] + more);
      assert ts[1..] == Tokens(entries[0].value) + a == Tokens(others[0].value) + b;
      SameText(entries[0].value, others[0].value, a, b);
      SameEntries(entries[1..], others[1..], rest, more);
    }
  }

  // ---------- accepted documents are clean ----------

  /** Known names in their known spelling, no two alike up to case, and nothing below the depth limit. */
  ghost predicate Clean(c: Rules, v: Value, depth: nat)
    decreases v
  {
    && depth <= c.depth
    && match v
       case Object(fields) =>
         && (forall k | k in fields :: k != "" && Admit(c, k) == k && Clean(c, fields[k], depth + 1))
         && (forall j, k | j in fields && k in fields && c.lower(j) == c.lower(k) :: j == k)
       case Array(items) => forall i | 0 <= i < |items| :: Clean(c, items[i], depth + 1)
       case _ => true
  }

  /** The known names are not empty. */
  ghost predicate Named(c: Rules) { Canonical(c) && forall k | k in c.canonical :: c.canonical[k] != "" }

  lemma {:induction false} MeaningIsClean(c: Rules, t: Text, depth: nat)
    requires Named(c) && Admissible(c, t, depth)
    ensures Clean(c, Meaning(c, t), depth)
    decreases t, 0
  {
    match t
    case Plain(_) =>
    case List(items) => ItemsAreClean(c, items, depth);
    case Record(entries) => EntriesAreClean(c, entries, depth, map[], {});
  }

  lemma {:induction false} ItemsAreClean(c: Rules, items: seq<Text>, depth: nat)
    requires Named(c) && AdmissibleItems(c, items, depth)
    ensures forall i | 0 <= i < |ItemMeanings(c, items)| :: Clean(c, ItemMeanings(c, items)[i], depth + 1)
    decreases items, 0
  {
    if items != [] {
      MeaningIsClean(c, items[0], depth + 1);
      ItemsAreClean(c, items[1..], depth);
    }
  }

  lemma {:induction false} EntriesAreClean(c: Rules, entries: seq<Entry>, depth: nat, result: Document,
                                           seen: set<string>)
    requires Named(c) && depth <= c.depth && AdmissibleEntries(c, entries, depth, seen)
    requires Clean(c, Object(result), depth) && forall k | k in result :: c.lower(k) in seen
    ensures Clean(c, Object(Fill(c, result, entries)), depth)
    decreases entries, 0
  {
    if entries != [] {
      var key, value := entries[0].key, entries[0].value;
      MeaningIsClean(c, value, depth + 1);
      var next := result[Admit(c, key) := Meaning(c, value)];
      assert c.lower(Admit(c, key)) == c.lower(key);
      assert Object(next).fields == next && Object(result).fields == result;
      EntriesAreClean(c, entries[1..], depth, next, seen + {c.lower(key)});
    }
  }

  // ---------- writing a value ----------

  /** The text writes the value: every name once, in any order. */
  ghost predicate Writes(t: Text, v: Value)
    decreases t
  {
    match t
    case Plain(w) => v == w && !v.Array? && !v.Object?
    case List(items) => v.Array? && WritesItems(items, v.items)
    case Record(entries) => v.Object? && WritesEntries(entries, v.fields)
  }

  ghost predicate WritesItems(items: seq<Text>, values: seq<Value>)
    decreases items
  {
    if items == [] then values == []
    else values != [] && Writes(items[0], values[0]) && WritesItems(items[1..], values[1..])
  }

  ghost predicate WritesEntries(entries: seq<Entry>, fields: Document)
    decreases entries
  {
    if entries == [] then fields == map[]
    else
      var key := entries[0].key;
      key in fields && Writes(entries[0].value, fields[key]) && WritesEntries(entries[1..], fields - {key})
  }

  lemma {:induction false} CleanIsAdmissible(c: Rules, t: Text, v: Value, depth: nat)
    requires Writes(t, v) && Clean(c, v, depth)
    ensures Admissible(c, t, depth) && Meaning(c, t) == v
    decreases t, 0
  {
    match t
    case Plain(_) =>
    case List(items) => CleanItems(c, items, v.items, depth);
    case Record(entries) =>
      assert map[] + v.fields == v.fields;
      CleanEntries(c, entries, v.fields, depth, map[], {});
  }

  lemma {:induction false} CleanItems(c: Rules, items: seq<Text>, values: seq<Value>, depth: nat)
    requires WritesItems(items, values) && forall i | 0 <= i < |values| :: Clean(c, values[i], depth + 1)
    ensures AdmissibleItems(c, items, depth) && ItemMeanings(c, items) == values
    decreases items, 0
  {
    if items != [] {
      CleanIsAdmissible(c, items[0], values[0], depth + 1);
      CleanItems(c, items[1..], values[1..], depth);
    }
  }

  lemma {:induction false} CleanEntries(c: Rules, entries: seq<Entry>, fields: Document, depth: nat, result: Document,
                                        seen: set<string>)
    requires WritesEntries(entries, fields) && Clean(c, Object(fields), depth)
    requires forall k | k in fields :: c.lower(k) !in seen
    ensures AdmissibleEntries(c, entries, depth, seen) && Fill(c, result, entries) == result + fields
    decreases entries, 0
  {
    if entries != [] {
      var key, value := entries[0].key, entries[0].value;
      CleanWithout(c, fields, depth, key, result);
      hide Clean;
      CleanIsAdmissible(c, value, fields[key], depth + 1);
      CleanEntries(c, entries[1..], fields - {key}, depth, result[key := fields[key]], seen + {c.lower(key)});
    }
  }

  lemma CleanWithout(c: Rules, fields: Document, depth: nat, key: string, result: Document)
    requires Clean(c, Object(fields), depth) && key in fields
    ensures Clean(c, Object(fields - {key}), depth) && Clean(c, fields[key], depth + 1)
    ensures key != "" && Admit(c, key) == key && forall k | k in fields - {key} :: c.lower(k) != c.lower(key)
    ensures result[key := fields[key]] + (fields - {key}) == result + fields
  {
    var left := fields - {key};
    assert Object(fields).fields == fields && Object(left).fields == left;
  }

  /** Every value can be written. */
  lemma {:induction false} EveryValueCanBeWritten(v: Value) returns (t: Text)
    ensures Writes(t, v)
    decreases v, 1, 0
  {
    match v
    case Array(items) =>
      var texts := ItemsCanBeWritten(v, 0);
      assert items[0..] == items;
      t := List(texts);
    case Object(fields) =>
      var entries := EntriesCanBeWritten(v, fields);
      t := Record(entries);
    case _ =>
      t := Plain(v);
  }

  lemma {:induction false} ItemsCanBeWritten(v: Value, n: nat) returns (texts: seq<Text>)
    requires v.Array? && n <= |v.items|
    ensures WritesItems(texts, v.items[n..])
    decreases v, 0, |v.items| - n
  {
    if n == |v.items| {
      texts := [];
    } else {
      var first := EveryValueCanBeWritten(v.items[n]);
      var more := ItemsCanBeWritten(v, n + 1);
      texts := [first] + more;
    }
  }

  lemma {:induction false} EntriesCanBeWritten(v: Value, fields: Document) returns (entries: seq<Entry>)
    requires v.Object? && forall k | k in fields :: k in v.fields && fields[k] == v.fields[k]
    ensures WritesEntries(entries, fields)
    decreases v, 0, |fields|
  {
    if fields == map[] {
      entries := [];
    } else {
      var key :| key in fields;
      assert fields == (fields - {key})[key := fields[key]];
      var first := EveryValueCanBeWritten(v.fields[key]);
      var more := EntriesCanBeWritten(v, fields - {key});
      entries := [Entry(key, first)] + more;
    }
  }

  // ---------- the language of documents ----------

  /** What a document text needs to be accepted. */
  predicate Acceptable(c: Rules, t: Text) { t.Record? && Admissible(c, t, 0) && Count(t) <= c.nodes }

  /** The decoder accepts exactly the acceptable texts, each with its meaning. */
  lemma DecoderAcceptsExactly(c: Rules, t: Text, d: Document)
    requires Scalars(t)
    ensures DecodeDocument(c, Tokens(t)) == Some(d) <==> Acceptable(c, t) && Meaning(c, t) == Object(d)
  {
    var ts := Tokens(t);
    assert ts + [] == ts;
    if DecodeDocument(c, ts) == Some(d) {
      ScalarsAreLexical(t);
      var u := TextWasRead(c, ts, 0, 0);
      SameText(t, u, [], []);
    }
    if Acceptable(c, t) {
      ReadsText(c, t, [], 0, 0);
    }
  }

  lemma {:induction false} ScalarsAreLexical(t: Text)
    requires Scalars(t)
    ensures Lexical(Tokens(t))
    decreases t, 0
  {
    match t
    case Plain(_) =>
    case List(items) => ScalarItemsAreLexical(items);
    case Record(entries) => ScalarEntriesAreLexical(entries);
  }

  lemma {:induction false} ScalarItemsAreLexical(items: seq<Text>)
    requires ScalarItems(items)
    ensures Lexical(ItemTokens(items))
    decreases items, 0
  {
    if items != [] {
      ScalarsAreLexical(items[0]);
      ScalarItemsAreLexical(items[1..]);
    }
  }

  lemma {:induction false} ScalarEntriesAreLexical(entries: seq<Entry>)
    requires ScalarEntries(entries)
    ensures Lexical(EntryTokens(entries))
    decreases entries, 0
  {
    if entries != [] {
      ScalarsAreLexical(entries[0].value);
      ScalarEntriesAreLexical(entries[1..]);
    }
  }

  /** Tokens that are accepted are a text, and the document is clean. */
  lemma AcceptedDocumentsAreClean(c: Rules, ts: seq<JsonToken>) returns (t: Text)
    requires Named(c) && Lexical(ts) && DecodeDocument(c, ts).Some?
    ensures ts == Tokens(t) && Acceptable(c, t) && Meaning(c, t) == Object(DecodeDocument(c, ts).value)
    ensures Clean(c, Object(DecodeDocument(c, ts).value), 0)
  {
    t := TextWasRead(c, ts, 0, 0);
    assert Tokens(t) + [] == Tokens(t);
    MeaningIsClean(c, t, 0);
  }

  /** Writing a document and decoding it gives it back exactly when it is clean and within the
      bounds; and every document can be written. */
  lemma DocumentRoundTrip(c: Rules, d: Document, t: Text)
    requires Named(c) && Writes(t, Object(d))
    ensures DecodeDocument(c, Tokens(t)) == Some(d) <==> Clean(c, Object(d), 0) && Count(t) <= c.nodes
  {
    WrittenIsScalar(t, Object(d));
    ScalarsAreLexical(t);
    DecoderAcceptsExactly(c, t, d);
    if DecodeDocument(c, Tokens(t)) == Some(d) {
      var u := AcceptedDocumentsAreClean(c, Tokens(t));
    }
    if Clean(c, Object(d), 0) {
      CleanIsAdmissible(c, t, Object(d), 0);
    }
  }

  lemma {:induction false} WrittenIsScalar(t: Text, v: Value)
    requires Writes(t, v)
    ensures Scalars(t)
    decreases t, 0
  {
    match t
    case Plain(_) =>
    case List(items) => WrittenItemsAreScalar(items, v.items);
    case Record(entries) => WrittenEntriesAreScalar(entries, v.fields);
  }

  lemma {:induction false} WrittenItemsAreScalar(items: seq<Text>, values: seq<Value>)
    requires WritesItems(items, values)
    ensures ScalarItems(items)
    decreases items, 0
  {
    if items != [] {
      WrittenIsScalar(items[0], values[0]);
      WrittenItemsAreScalar(items[1..], values[1..]);
    }
  }

  lemma {:induction false} WrittenEntriesAreScalar(entries: seq<Entry>, fields: Document)
    requires WritesEntries(entries, fields)
    ensures ScalarEntries(entries)
    decreases entries, 0
  {
    if entries != [] {
      WrittenIsScalar(entries[0].value, fields[entries[0].key]);
      WrittenEntriesAreScalar(entries[1..], fields - {entries[0].key});
    }
  }
}
