/** A serde_json value. An element's document is an object: keys to values. */
module Json {

  datatype Json =
    | Null
    | Bool(b: bool)
    | Number(n: int)
    | Str(s: string)
    | Array(items: seq<Json>)
    | Object(fields: map<string, Json>)

  /** `Map<String, Value>`: the body of an element. */
  type JsonObject = map<string, Json>
}
