/** A decoded JSON document. Numbers keep their literal, as the decoders here are told to (`UseNumber`). */
module JsonValues {
  datatype Json =
    | Null
    | Bool(truth: bool)
    | Number(literal: string)
    | Str(text: string)
    | Arr(items: seq<Json>)
    | Obj(members: map<string, Json>)
}
