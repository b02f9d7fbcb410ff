/** JSON documents as the server sees them after decoding, and the option type the modules share. */
module Values {
  datatype Option<+T> = None | Some(value: T)

  /** A decoded JSON value. Numbers keep their source text, as the decoder does. */
  datatype Value =
    | Null
    | Bool(flag: bool)
    | Number(digits: string)
    | Text(text: string)
    | Array(items: seq<Value>)
    | Object(fields: map<string, Value>)

  type Document = map<string, Value>

  /** An element of a multi-valued attribute that is marked as the primary one. */
  predicate IsPrimary(v: Value) {
    v.Object? && "primary" in v.fields && v.fields["primary"] == Bool(true)
  }

  // ---------- places inside a value ----------

  /** One step into a value: to a field of an object or to an element of an array. */
  datatype Hop = Field(name: string) | Item(index: nat)

  /** What stands at a place. */
  function AtPlace(v: Value, place: seq<Hop>): Option<Value>
    decreases |place|
  {
    if place == [] then Some(v)
    else
      match (place[0], v)
      case (Field(name), Object(fields)) => if name in fields then AtPlace(fields[name], place[1..]) else None
      case (Item(index), Array(items)) => if index < |items| then AtPlace(items[index], place[1..]) else None
      case _ => None
  }
}
