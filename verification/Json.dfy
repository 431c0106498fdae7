/** JSON values as the predicate reader sees them. */
module Json {

  import opened Prelude

  datatype Json =
    | Null
    | Bool(b: bool)
    | Int(n: int)
    | Float(r: real)
    | Str(s: string)
    | Arr(items: seq<Json>)
    | Obj(fields: map<string, Json>)

  type Object = map<string, Json>

  function Get(o: Object, key: string): Option<Json> {
    if key in o then Some(o[key]) else None
  }

  /** `o.get(a).or_else(|| o.get(b))`. */
  function GetEither(o: Object, a: string, b: string): Option<Json> {
    if a in o then Some(o[a]) else Get(o, b)
  }

  function GetStr(o: Object, key: string): Option<string> {
    if key in o && o[key].Str? then Some(o[key].s) else None
  }

  const MIN_I64 := -0x8000_0000_0000_0000
  const MAX_I64 := 0x7FFF_FFFF_FFFF_FFFF
  const MIN_I32 := -0x8000_0000
  const MAX_I32 := 0x7FFF_FFFF

  /** `o.get(key).and_then(Value::as_i64)`. */
  function GetInt(o: Object, key: string): Option<int> {
    if key in o && o[key].Int? && MIN_I64 <= o[key].n <= MAX_I64 then Some(o[key].n) else None
  }
}
