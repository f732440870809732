/**
 The JSON values the user file holds, with Python's truthiness and `dict.get`.
 */
module Json {

  datatype JsonValue =
    | JNull
    | JBool(b: bool)
    | JNum(n: int)
    | JStr(s: string)
    | JArray(items: seq<JsonValue>)
    | JObject(fields: map<string, JsonValue>)

  /** Python's `bool(v)` for the value json.load produces. */
  predicate Truthy(v: JsonValue)
  {
    match v
    case JNull => false
    case JBool(b) => b
    case JNum(n) => n != 0
    case JStr(s) => s != []
    case JArray(items) => items != []
    case JObject(fields) => fields != map[]
  }

  /** `d.get(key)`: the stored value, or None (JSON null) when the key is absent. */
  function Get(d: map<string, JsonValue>, key: string): JsonValue
  {
    if key in d then d[key] else JNull
  }
}
