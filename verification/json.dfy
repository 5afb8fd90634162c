/**
 * JSON values as the source handles them after `JSON.parse`, and the text layer
 * (`JSON.parse` / `JSON.stringify`) as an opaque pair of functions.
 */
module Json {
  import opened Wrappers

  /** A parsed JSON value. Numbers are integers here (floating point is not modelled). */
  datatype Value =
    | Null
    | Bool(b: bool)
    | Num(n: int)
    | Str(s: string)
    | Arr(items: seq<Value>)
    | Obj(fields: map<string, Value>)

  /** JavaScript truthiness of a present value. */
  predicate Truthy(v: Value) {
    match v
    case Null => false
    case Bool(b) => b
    case Num(n) => n != 0
    case Str(s) => s != ""
    case Arr(_) => true
    case Obj(_) => true
  }

  /** JavaScript truthiness of a possibly `undefined` value. */
  predicate TruthyOpt(v: Option<Value>) {
    v.Some? && Truthy(v.value)
  }

  /** The JSON text codec: `parse` fails with `None` on a syntax error. */
  datatype JsonText = JsonText(parse: string -> Option<Value>, stringify: Value -> string)

  /** The text codec behaves as JSON does on `v`: the text is non-empty and parses back to `v`. */
  predicate RoundTripsOn(t: JsonText, v: Value) {
    t.stringify(v) != "" && t.parse(t.stringify(v)) == Some(v)
  }
}
