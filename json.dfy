/** The values `JSON.parse` can produce, and property access on them. */
module Json {
  import opened Wrappers

  /** A parsed JSON value. Numbers are IEEE doubles in the source; here they are reals. */
  datatype Value =
    | Null
    | Bool(b: bool)
    | Num(n: real)
    | Str(s: string)
    | Arr(items: seq<Value>)
    | Obj(fields: map<string, Value>)

  /**
   * `v[key]` for a value that is not `null`: the field of an object, and
   * `undefined` (None) for a missing field or for any other kind of value.
   */
  function Member(v: Value, key: string): Option<Value>
    requires !v.Null?
  {
    match v
    case Obj(fields) => if key in fields then Some(fields[key]) else None
    case _ => None
  }
}
