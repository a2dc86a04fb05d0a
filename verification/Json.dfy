/** JSON values with the accessors of `serde_json::Value`. */
module Json {
  import opened Common

  datatype Value =
    | Null
    | Bool(b: bool)
    | Int(n: int)
    | Float(r: real)
    | Str(s: string)
    | Arr(items: seq<Value>)
    | Obj(fields: map<string, Value>)

  function Field(fields: map<string, Value>, key: string): Option<Value> {
    if key in fields then Some(fields[key]) else None
  }

  function Get(v: Value, key: string): Option<Value> {
    if v.Obj? then Field(v.fields, key) else None
  }

  function AsStr(v: Option<Value>): Option<string> {
    if v.Some? && v.value.Str? then Some(v.value.s) else None
  }

  function AsArray(v: Option<Value>): Option<seq<Value>> {
    if v.Some? && v.value.Arr? then Some(v.value.items) else None
  }

  function AsObject(v: Option<Value>): Option<map<string, Value>> {
    if v.Some? && v.value.Obj? then Some(v.value.fields) else None
  }

  function AsU64(v: Option<Value>): Option<nat> {
    if v.Some? && v.value.Int? && 0 <= v.value.n <= U64_MAX then Some(v.value.n) else None
  }
}
