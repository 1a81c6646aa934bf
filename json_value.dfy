/**
 * The values a realtime-database snapshot yields (`snapshot.val()`): JSON
 * values, with `Null` for "no data at this location". Numbers are kept as
 * reals; a database holds no NaN or infinity.
 */
module JsonValue {

  datatype Value =
    | Null
    | Bool(b: bool)
    | Number(x: real)
    | Str(s: string)
    | Array(items: seq<Value>)
    | Object(fields: seq<(string, Value)>)

  /**
   * JavaScript truthiness (ToBoolean, section 7.1.2 of ECMA-262) on these
   * values: null, false, zero and the empty string are falsy; every array and
   * every object is truthy, even an empty one.
   */
  predicate Truthy(v: Value)
    ensures v.Null? ==> !Truthy(v)
    ensures v.Array? || v.Object? ==> Truthy(v)
  {
    match v
    case Null => false
    case Bool(b) => b
    case Number(x) => x != 0.0
    case Str(s) => s != ""
    case Array(_) => true
    case Object(_) => true
  }

  /** The body `{ message: m }` the routes send with an error or an empty result. */
  function MessageBody(m: string): Value {
    Object([("message", Str(m))])
  }
}
