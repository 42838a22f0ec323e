/**
 * The values a client sends over the socket: handshake tokens, register
 * arguments, presence and layer payloads. The relay never inspects them
 * beyond the JavaScript truthiness test on the token, so a JSON-like
 * datatype is enough. `Undefined` and `Null` are kept apart because the
 * roster sends `null` in one place and unset fields (`undefined`) in others.
 */
module Values {

  datatype Value =
    | Undefined
    | Null
    | Bool(b: bool)
    | Num(n: int)
    | Str(s: string)
    | Arr(items: seq<Value>)
    | Obj(fields: map<string, Value>)

  /** JavaScript falsiness: `!v` holds. Numbers are integers here, so NaN and -0 do not arise. */
  predicate Falsy(v: Value)
  {
    match v
    case Undefined => true
    case Null => true
    case Bool(b) => !b
    case Num(n) => n == 0
    case Str(s) => s == ""
    case Arr(_) => false
    case Obj(_) => false
  }

  /**
   * JavaScript's string conversion (a template literal's `${v}`) throws a
   * TypeError. A JSON object with its own `toString` key has a non-callable
   * `toString`, and its `valueOf` yields the object itself, so there is no
   * primitive to convert. An array converts by joining its elements, so it
   * throws when one of its elements does. Primitives never throw.
   */
  predicate StringConversionThrows(v: Value)
  {
    match v
    case Obj(fields) => "toString" in fields
    case Arr(items) => exists i :: 0 <= i < |items| && StringConversionThrows(items[i])
    case _ => false
  }
}
