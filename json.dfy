/**
  JSON values (section 3 of RFC 8259) as Python holds them after json.loads:
  null, booleans, numbers (Python keeps integers and floats apart), strings,
  arrays and objects. An object is the list of its members in insertion
  order, the order in which Python's dict.items() yields them.
*/
module JsonValue {
  import opened Text

  datatype Json =
    | JNull
    | JBool(b: bool)
    | JInt(i: int)
    | JFloat(f: real)
    | JString(s: string)
    | JArray(items: seq<Json>)
    | JObject(fields: seq<Field>)

  datatype Field = Field(key: string, value: Json)

  /** What json.loads gives back: a value, or the message of the exception. */
  datatype ParseResult = Parsed(value: Json) | Failed(message: string)

  /** Python truthiness: None, False, zero and empty containers are false. */
  predicate Truthy(j: Json) {
    match j
    case JNull => false
    case JBool(b) => b
    case JInt(i) => i != 0
    case JFloat(f) => f != 0.0
    case JString(s) => s != []
    case JArray(items) => items != []
    case JObject(fields) => fields != []
  }

  /** The empty dict `{}`. */
  const EmptyObject: Json := JObject([])

  /** The empty list `[]`. */
  const EmptyArray: Json := JArray([])

  /** dict.get(key, default) on the members of an object. */
  function Get(fields: seq<Field>, key: string, default: Json): (r: Json)
    ensures r == default || exists k | 0 <= k < |fields| :: fields[k].key == key && fields[k].value == r
    ensures (forall k | 0 <= k < |fields| :: fields[k].key != key) ==> r == default
    decreases |fields|
  {
    if fields == [] then default
    else if fields[0].key == key then fields[0].value
    else Get(fields[1..], key, default)
  }

  /** `key in d` */
  predicate HasKey(fields: seq<Field>, key: string) {
    exists k | 0 <= k < |fields| :: fields[k].key == key
  }

  /** A key that is present is found, and the value found is the first one
      stored under it. */
  lemma {:induction false} GetFirst(fields: seq<Field>, key: string, default: Json, k: nat)
    requires k < |fields| && fields[k].key == key
    requires forall m | 0 <= m < k :: fields[m].key != key
    ensures Get(fields, key, default) == fields[k].value
    decreases k
  {
    if k > 0 {
      GetFirst(fields[1..], key, default, k - 1);
    }
  }

  /** What a `for x in value` loop visits: a list gives its items, a dict its
      keys, a string its characters; iterating anything else raises, which is
      None here. */
  function Iterate(j: Json): (r: Option<seq<Json>>)
    ensures j.JArray? ==> r == Some(j.items)
    ensures j.JObject? ==> r.Some? && |r.value| == |j.fields|
    ensures j.JString? ==> r.Some? && |r.value| == |j.s|
    ensures r.None? <==> !(j.JArray? || j.JObject? || j.JString?)
  {
    match j
    case JArray(items) => Some(items)
    case JObject(fields) => Some(seq(|fields|, k requires 0 <= k < |fields| => JString(fields[k].key)))
    case JString(s) => Some(seq(|s|, k requires 0 <= k < |s| => JString([s[k]])))
    case _ => None
  }

  /** f"{value}": strings as themselves, integers in decimal, booleans and
      None by name; floats, lists and dicts through Python's repr, which is
      given as `show`. */
  function Format(j: Json, show: Json -> string): (r: string)
    ensures j.JString? ==> r == j.s
    ensures j.JInt? ==> r == IntToString(j.i)
  {
    match j
    case JString(s) => s
    case JInt(i) => IntToString(i)
    case JBool(b) => if b then "True" else "False"
    case JNull => "None"
    case _ => show(j)
  }
}
