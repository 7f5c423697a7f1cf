/** JSON values as the scripts build, load and dump them. */
module Json {

  /** Python's `None` next to a value. */
  datatype Option<T> = None | Some(value: T)

  /** A JSON document after `json.load` or before `json.dump`.
      Floats are kept as opaque reals; objects are maps, so key order is not kept. */
  datatype Value =
    | Null
    | Bool(b: bool)
    | Int(i: int)
    | Num(r: real)
    | Str(s: string)
    | Arr(items: seq<Value>)
    | Obj(fields: map<string, Value>)

  /** A string argument that may be `None`, as JSON: `null` or a string. */
  function OptionalString(o: Option<string>): (v: Value)
    ensures o.None? <==> v == Null
    ensures o.Some? ==> v == Str(o.value)
  {
    match o
    case None => Null
    case Some(s) => Str(s)
  }
}
