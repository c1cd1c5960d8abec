/** JSON values as the server receives and stores them, and JavaScript's
    truthiness test on them. */
module Json {
  /** A JSON value. Numbers are integers; arrays, nested objects and
      fractional numbers are lumped together as JComposite, which no part of
      the core looks inside. */
  datatype Json = JNull | JBool(b: bool) | JNum(n: int) | JStr(s: string) | JComposite

  /** A JSON object, used both for request bodies and for table rows:
      property name to value. An absent key is JavaScript's `undefined`. */
  type Row = map<string, Json>

  /** JavaScript truthiness of a JSON value (`if (v)`, `v || w`, `!v`). */
  predicate Truthy(v: Json) {
    match v
    case JNull => false
    case JBool(b) => b
    case JNum(n) => n != 0
    case JStr(s) => s != ""
    case JComposite => true
  }

  /** Truthiness of `o.key`; an absent key reads as `undefined`, which is falsy. */
  predicate FieldTruthy(o: Row, key: string) {
    key in o && Truthy(o[key])
  }
}
