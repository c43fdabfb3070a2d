/** Parsed JSON request bodies, and the few JavaScript notions the handlers apply to them. */
module Json {
  import opened Common

  /** A value as `express.json()` hands it to a handler. Numbers are JavaScript numbers,
      kept here as reals; an object is a map from its keys to its values. */
  datatype Json =
    | JNull
    | JBool(b: bool)
    | JNum(n: real)
    | JStr(s: string)
    | JArr(items: seq<Json>)
    | JObj(fields: map<string, Json>)

  /** `body.key`: a missing key reads as `undefined` (None). Values that are not
      objects carry none of the named properties the handlers look up. */
  function Field(v: Json, key: string): (r: Option<Json>)
    ensures r.Some? <==> v.JObj? && key in v.fields
    ensures r.Some? ==> r.value == v.fields[key]
  {
    if v.JObj? && key in v.fields then Some(v.fields[key]) else None
  }

  /** JavaScript truthiness, as `if (x)` tests it: null, false, 0 and "" are falsy. */
  predicate Truthy(v: Json) {
    match v
    case JNull => false
    case JBool(b) => b
    case JNum(n) => n != 0.0
    case JStr(s) => s != ""
    case JArr(_) => true
    case JObj(_) => true
  }

  /** `Number.isInteger`. */
  predicate IsInteger(x: real) {
    x.Floor as real == x
  }
}
