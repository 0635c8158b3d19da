/**
 * The value `JSON.parse` hands back, and the two JavaScript operations the
 * word-list sanitiser applies to it: truthiness and reading a property.
 */
module Json {
  import opened Wrappers

  /** A parsed JSON value. Objects are maps: on duplicate keys `JSON.parse` keeps the last. */
  datatype Value =
    | Null
    | Bool(b: bool)
    | Number(n: real)
    | Str(s: string)
    | Array(elems: seq<Value>)
    | Object(props: map<string, Value>)

  /** The outcome of `JSON.parse(raw)`: it throws on a syntax error or returns a value. */
  datatype Parsed = SyntaxError | Parsed(value: Value)

  /** JavaScript truthiness of a parsed value (`x && …`). */
  predicate Truthy(v: Value) {
    match v
    case Null => false
    case Bool(b) => b
    case Number(n) => n != 0.0
    case Str(s) => s != ""
    case Array(_) => true
    case Object(_) => true
  }

  /**
   * `typeof v[key] === 'string' ? v[key] : …`: the property as a string,
   * or None when it is missing (`undefined`) or not a string. Only objects
   * carry the `word` and `meaning` keys the sanitiser reads.
   */
  function StringProperty(v: Value, key: string): (r: Option<string>)
    ensures r.Some? <==> v.Object? && key in v.props && v.props[key].Str?
    ensures r.Some? ==> v.props[key] == Str(r.value)
  {
    if v.Object? && key in v.props && v.props[key].Str? then Some(v.props[key].s) else None
  }
}
