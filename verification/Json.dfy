/** JSON values after parsing, with the accessors the proxy uses on them. */
module JsonValues {
  import opened Common

  datatype Json =
    | Null
    | Bool(b: bool)
    | Integer(n: int)
    | Float(r: real)
    | Str(s: string)
    | Arr(items: seq<Json>)
    | Obj(fields: map<string, Json>)

  function Get(v: Json, key: string): Option<Json> {
    if v.Obj? && key in v.fields then Some(v.fields[key]) else None
  }

  function GetStr(v: Json, key: string): Option<string> {
    match Get(v, key)
    case Some(Str(s)) => Some(s)
    case _ => None
  }

  function GetArray(v: Json, key: string): Option<seq<Json>> {
    match Get(v, key)
    case Some(Arr(items)) => Some(items)
    case _ => None
  }

  function GetU64(v: Json, key: string): Option<nat> {
    match Get(v, key)
    case Some(Integer(n)) => if 0 <= n < 0x1_0000_0000_0000_0000 then Some(n) else None
    case _ => None
  }

  function GetBool(v: Json, key: string): Option<bool> {
    match Get(v, key)
    case Some(Bool(b)) => Some(b)
    case _ => None
  }

  /** Replace or add one member of an object. */
  function With(v: Json, key: string, value: Json): Json
    requires v.Obj?
  {
    Obj(v.fields[key := value])
  }

  /** Remove one member of an object; other values have no members. */
  function Without(v: Json, key: string): Json {
    if v.Obj? then Obj(v.fields - {key}) else v
  }
}
