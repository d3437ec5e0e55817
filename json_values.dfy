/** Decoded JSON values. An object keeps its members in order, with distinct keys. */
module JsonValues {
  datatype Json =
    | Null
    | Bool(b: bool)
    | Num(n: int)
    | Str(s: string)
    | Arr(items: seq<Json>)
    | Obj(fields: seq<(string, Json)>)
}
