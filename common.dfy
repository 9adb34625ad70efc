/**
 * Small value types shared by the parser and the command-line layer:
 * an optional value (Python's `None` or a value), a result with an error
 * (an exception or an early `sys.exit`), and the JSON values the schema
 * exporter writes and the command-line layer reads back.
 */
module Common {

  datatype Option<+T> = None | Some(value: T)

  datatype Result<+T, +E> = Success(value: T) | Failure(error: E)

  /** The JSON values that occur in an exported schema file. */
  datatype Json = JNull | JBool(b: bool) | JInt(i: int) | JString(s: string)

  /** Python truthiness of an optional string: `None` and `""` are falsy. */
  predicate Truthy(o: Option<string>) {
    o.Some? && o.value != ""
  }

  /** Python truthiness of a JSON value once loaded (`None`, `False`, `0`, `""` are falsy). */
  predicate JsonTruthy(v: Json) {
    match v
    case JNull => false
    case JBool(b) => b
    case JInt(i) => i != 0
    case JString(s) => s != ""
  }

  /** `None` becomes JSON `null`, a string becomes a JSON string. */
  function OptionToJson(o: Option<string>): (j: Json)
    ensures j == JNull <==> o.None?
    ensures o.Some? ==> j == JString(o.value)
  {
    match o
    case None => JNull
    case Some(s) => JString(s)
  }
}
