/** Parsed JSON, and the defensive readers used on it. */
module Json {
  import opened Text

  datatype Json =
    | Null
    | Bool(bit: bool)
    | Number(amount: real)
    | Str(text: string)
    | Arr(items: seq<Json>)
    | Obj(fields: map<string, Json>)

  /** Anything the typeof operator calls an object and that is not null. */
  predicate IsRecord(v: Json) {
    v.Arr? || v.Obj?
  }

  function Field(v: Json, key: string): Option<Json> {
    if v.Obj? && key in v.fields then Some(v.fields[key]) else None
  }

  function ReadString(v: Json, key: string): Option<string> {
    match Field(v, key)
    case Some(Str(s)) => Some(s)
    case _ => None
  }

  function ReadNumber(v: Json, key: string): Option<real> {
    match Field(v, key)
    case Some(Number(n)) => Some(n)
    case _ => None
  }

  function ReadRecord(v: Json, key: string): Option<Json> {
    match Field(v, key)
    case Some(r) => if IsRecord(r) then Some(r) else None
    case None => None
  }
}
