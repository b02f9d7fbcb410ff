/** Strict decoding of JSON tokens: bounded depth, a shared count of values, and no two names in
    one object that differ only in case. */
module Json {
  import opened Values

  const MAXIMUM_DEPTH := 64
  const MAXIMUM_NODES := 10000

  datatype JsonToken = BeginObject | EndObject | BeginArray | EndArray | Scalar(value: Value)

  /** Lower-casing, the known spelling of each lower-cased name, and the bounds. */
  datatype Rules = Rules(lower: string -> string, canonical: map<string, string>, depth: nat, nodes: nat)

  /** The table of known spellings is built by lower-casing each of them. */
  ghost predicate Canonical(c: Rules) {
    forall k | k in c.canonical :: c.lower(c.canonical[k]) == k
  }

  function Admit(c: Rules, key: string): string {
    if c.lower(key) in c.canonical then c.canonical[c.lower(key)] else key
  }

  // ---------- the decoder as a function of the remaining tokens ----------

  datatype Decoded = Failed | Done(value: Value, rest: seq<JsonToken>, nodes: nat)

  function DecodeValue(c: Rules, ts: seq<JsonToken>, depth: nat, nodes: nat): (r: Decoded)
    ensures r.Done? ==> |r.rest| < |ts|
    decreases |ts|, 1
  {
    if depth > c.depth || nodes >= c.nodes || ts == [] then Failed
    else
      match ts[0]
      case Scalar(v) => Done(v, ts[1..], nodes + 1)
      case BeginObject => DecodeFields(c, ts[1..], depth, nodes + 1, map[], {})
      case BeginArray => DecodeItems(c, ts[1..], depth, nodes + 1, [])
      case _ => Failed
  }

  function DecodeFields(c: Rules, ts: seq<JsonToken>, depth: nat, nodes: nat, result: Document,
                        seen: set<string>): (r: Decoded)
    ensures r.Done? ==> |r.rest| < |ts|
    decreases |ts|, 0
  {
    if ts == [] then Failed
    else
      match ts[0]
      case EndObject => Done(Object(result), ts[1..], nodes)
      case Scalar(Text(key)) =>
        if key == "" || c.lower(key) in seen then Failed
        else
          (match DecodeValue(c, ts[1..], depth + 1, nodes)
           case Failed => Failed
           case Done(value, rest, count) =>
             DecodeFields(c, rest, depth, count, result[Admit(c, key) := value], seen + {c.lower(key)}))
      case _ => Failed
  }

  function DecodeItems(c: Rules, ts: seq<JsonToken>, depth: nat, nodes: nat, result: seq<Value>): (r: Decoded)
    ensures r.Done? ==> |r.rest| < |ts|
    decreases |ts|, 2
  {
    if ts == [] || ts[0].EndObject? then Failed
    else if ts[0].EndArray? then Done(Array(result), ts[1..], nodes)
    else
      match DecodeValue(c, ts, depth + 1, nodes)
      case Failed => Failed
      case Done(value, rest, count) => DecodeItems(c, rest, depth, count, result + [value])
  }

  /** A whole document: one object and nothing after it. */
  function DecodeDocument(c: Rules, ts: seq<JsonToken>): Option<Document> {
    match DecodeValue(c, ts, 0, 0)
    case Done(value, rest, _) => if rest == [] && value.Object? then Some(value.fields) else None
    case Failed => None
  }

  // ---------- the decoder object ----------

  class JsonDecoder {
    const tokens: seq<JsonToken>
    const rules: Rules
    var index: nat
    var nodes: nat

    constructor (rules: Rules, tokens: seq<JsonToken>)
      ensures Valid() && this.rules == rules && this.tokens == tokens && index == nodes == 0
    {
      this.rules, this.tokens, index, nodes := rules, tokens, 0, 0;
    }

    ghost predicate Valid()
      reads this
    {
      index <= |tokens|
    }

    function Rest(): seq<JsonToken>
      requires Valid()
      reads this
    {
      tokens[index..]
    }

    /** The library's look-ahead: something other than a closing bracket follows. */
    predicate More()
      requires Valid()
      reads this
    {
      index < |tokens| && !tokens[index].EndObject? && !tokens[index].EndArray?
    }

    method Token() returns (t: Option<JsonToken>)
      requires Valid()
      modifies this`index
      ensures Valid()
      ensures old(Rest()) == [] ==> t == None && index == old(index)
      ensures old(Rest()) != [] ==> t == Some(old(Rest())[0]) && index == old(index) + 1 && Rest() == old(Rest())[1..]
    {
      if index == |tokens| {
        return None;
      }
      t := Some(tokens[index]);
      index := index + 1;
    }

    ghost predicate Follows(d: Decoded, r: Option<Value>)
      requires Valid()
      reads this
    {
      match d
      case Failed => r == None
      case Done(value, rest, count) => r == Some(value) && Rest() == rest && nodes == count
    }

    method Value(depth: nat) returns (r: Option<Value>)
      requires Valid()
      modifies this
      ensures Valid() && index >= old(index)
      ensures Follows(DecodeValue(rules, old(Rest()), depth, old(nodes)), r)
      decreases |tokens| - index, 1
    {
      hide DecodeFields, DecodeItems;
      if depth > rules.depth || nodes >= rules.nodes {
        return None;
      }
      nodes := nodes + 1;
      var token := Token();
      if token.None? {
        return None;
      }
      match token.value
      case Scalar(v) => return Some(v);
      case BeginObject => r := Fields(depth);
      case BeginArray => r := Items(depth);
      case _ => return None;
    }

    method Fields(depth: nat) returns (r: Option<Value>)
      requires Valid()
      modifies this
      ensures Valid() && index >= old(index)
      ensures Follows(DecodeFields(rules, old(Rest()), depth, old(nodes), map[], {}), r)
      decreases |tokens| - index, 2
    {
      hide DecodeValue;
      var result: Document := map[];
      var seen: set<string> := {};
      ghost var answer := DecodeFields(rules, Rest(), depth, nodes, result, seen);
      while More()
        invariant Valid() && index >= old(index)
        invariant answer == DecodeFields(rules, Rest(), depth, nodes, result, seen)
        decreases |tokens| - index
      {
        var token := Token();
        if token == None || !token.value.Scalar? || !token.value.value.Text? || token.value.value.text == "" {
          return None;
        }
        var key := token.value.value.text;
        if rules.lower(key) in seen {
          return None;
        }
        var value := Value(depth + 1);
        if value.None? {
          return None;
        }
        seen := seen + {rules.lower(key)};
        result := result[Admit(rules, key) := value.value];
      }
      var closing := Token();
      return if closing == Some(EndObject) then Some(Object(result)) else None;
    }

    method Items(depth: nat) returns (r: Option<Value>)
      requires Valid()
      modifies this
      ensures Valid() && index >= old(index)
      ensures Follows(DecodeItems(rules, old(Rest()), depth, old(nodes), []), r)
      decreases |tokens| - index, 2
    {
      hide DecodeValue;
      var result: seq<Value> := [];
      ghost var answer := DecodeItems(rules, Rest(), depth, nodes, result);
      while More()
        invariant Valid() && index >= old(index)
        invariant answer == DecodeItems(rules, Rest(), depth, nodes, result)
        decreases |tokens| - index
      {
        var value := Value(depth + 1);
        if value.None? {
          return None;
        }
        result := result + [value.value];
      }
      var closing := Token();
      return if closing == Some(EndArray) then Some(Array(result)) else None;
    }
  }

  method Decode(lower: string -> string, canonical: map<string, string>, tokens: seq<JsonToken>)
    returns (r: Option<Document>)
    ensures r == DecodeDocument(Rules(lower, canonical, MAXIMUM_DEPTH, MAXIMUM_NODES), tokens)
  {
    var decoder := new JsonDecoder(Rules(lower, canonical, MAXIMUM_DEPTH, MAXIMUM_NODES), tokens);
    assert decoder.Rest() == tokens;
    var value := decoder.Value(0);
    if value.None? {
      return None;
    }
    var trailing := decoder.Token();
    return if trailing == None && value.value.Object? then Some(value.value.fields) else None;
  }
}
