/** Decoded JSON documents as values. */
module Json {
  datatype Json =
    | Null
    | Bool(flag: bool)
    | Number(value: real)
    | Str(text: string)
    | Arr(items: seq<Json>)
    | Obj(fields: map<string, Json>)
}
