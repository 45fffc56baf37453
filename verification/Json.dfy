/** JSON values as the control plane reads and rewrites them. */
module Json {
  import opened Wrappers

  /** Integers are exact; other numbers are kept by their printed form. */
  datatype Value =
    | Null
    | Bool(b: bool)
    | Int(n: int)
    | Float(repr: string)
    | Str(s: string)
    | Array(items: seq<Value>)
    | Object(fields: map<string, Value>)

  /** Field lookup: only objects have fields. */
  function Get(v: Value, field: string): Option<Value> {
    if v.Object? && field in v.fields then Some(v.fields[field]) else None
  }

  function AsU64(v: Value): Option<nat> {
    if v.Int? && 0 <= v.n < 0x1_0000_0000_0000_0000 then Some(v.n) else None
  }

  function AsStr(v: Value): Option<string> {
    if v.Str? then Some(v.s) else None
  }
}
