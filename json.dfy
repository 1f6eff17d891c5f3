/** The part of a parsed JSON document (`serde_json::Value`) that the
    metadata code reads. Parsing itself is not modelled: a sidecar file is
    given already parsed, or as unreadable or unparsable. */
module Json {
  import opened Text

  /** A JSON number as `as_f64` yields it. Floating-point arithmetic is not
      modelled: the value is carried only by `display`, the text Rust's `{}`
      writes for it. */
  datatype F64 = F64(display: string)

  datatype Json =
    | Null
    | Bool(b: bool)
    | Number(n: F64)
    | String(s: string)
    | Array(items: seq<Json>)
    | Object(fields: map<string, Json>)

  /** `v[key]`: the member `key` of an object; `Null` when `v` is not an
      object or has no such member (indexing never fails). */
  function Index(v: Json, key: string): Json
  {
    match v
    case Object(fields) => if key in fields then fields[key] else Null
    case _ => Null
  }

  /** `v.as_str()`: the text of a string value. */
  function AsStr(v: Json): Option<string>
  {
    if v.String? then Some(v.s) else None
  }

  /** `v.as_f64()`: every JSON number has an `f64` value. */
  function AsF64(v: Json): Option<F64>
  {
    if v.Number? then Some(v.n) else None
  }

  /** `a.or_else(|| b)`. */
  function OrElse<T>(a: Option<T>, b: Option<T>): Option<T>
  {
    if a.Some? then a else b
  }
}
