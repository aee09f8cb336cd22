/** JSON values. */
module Json {
  import opened Options
  import opened Records

  datatype Json =
    | Null
    | Bool(b: bool)
    | Num(text: string)
    | Str(s: string)
    | Arr(items: seq<Json>)
    | Obj(fields: Record<Json>)

  /** The field of an object; nothing for any other value. */
  function Field(j: Json, key: string): Option<Json> {
    if j.Obj? then Get(j.fields, key) else None
  }
}
