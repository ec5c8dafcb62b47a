/** JSON values as the handlers receive them from request bodies and
    metadata documents. */
module Json {

  /** A JSON value. Numbers are integers in this model. */
  datatype Json =
    | JNull
    | JBool(b: bool)
    | JNum(n: int)
    | JStr(s: string)
    | JArr(items: seq<Json>)
    | JObj(fields: map<string, Json>)

  /** A JSON value that is neither an object nor an array. */
  datatype Scalar = SNull | SBool(b: bool) | SNum(n: int) | SStr(s: string)

  /** JavaScript truthiness of a scalar (`null`, `false`, `0` and `""` are falsy). */
  predicate Truthy(v: Scalar)
  {
    match v
    case SNull => false
    case SBool(b) => b
    case SNum(n) => n != 0
    case SStr(s) => s != ""
  }
}
