/** JSON documents as the library holds them after decoding: maps from member
    names to values, arrays and scalars. A string is a sequence of bytes. */
module JsonModel {
  import opened Wrappers

  datatype Json =
    | Null
    | Bool(b: bool)
    | Num(n: real)
    | Str(s: string)
    | Arr(items: seq<Json>)
    | Obj(members: map<string, Json>)
}
