/** Parsed JSON as the response parsers see it. */
module Json {
  import opened Wrappers

  /** `NonFinite` is a number literal too large for a double. */
  datatype Json = Null | Bool(b: bool) | Num(n: real) | NonFinite | Str(s: string) | Arr(items: seq<Json>) | Obj(fields: map<string, Json>)

  /** The value as a record: an array has none of the named fields. */
  function AsRecord(j: Json): Option<map<string, Json>> {
    match j
    case Obj(fields) => Some(fields)
    case Arr(_) => Some(map[])
    case _ => None
  }

  /** A field, a missing one reading as null. */
  function Get(row: map<string, Json>, key: string): Json {
    if key in row then row[key] else Null
  }
}
