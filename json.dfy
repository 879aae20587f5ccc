/** JSON values as Python's `json.loads` returns them. The parser and the
    serialiser themselves are foreign; they appear in the model as function
    parameters (`loads`, `dumps`). Numbers are modelled as reals. */
module JsonValues {
  import opened Wrappers

  datatype Json =
    | JNull
    | JBool(b: bool)
    | JNumber(n: real)
    | JString(s: string)
    | JArray(items: seq<Json>)
    | JObject(fields: map<string, Json>)

  /** Python truthiness of the value (`if value:`). */
  predicate Truthy(j: Json)
  {
    match j
    case JNull => false
    case JBool(b) => b
    case JNumber(n) => n != 0.0
    case JString(s) => s != ""
    case JArray(items) => items != []
    case JObject(fields) => fields != map[]
  }

  /** `d.get(key, default)` on a dictionary. */
  function Get(fields: map<string, Json>, key: string, default: Json): Json
  {
    if key in fields then fields[key] else default
  }

  /** The UTF-8 decoder, the JSON parser and the serialiser of the Python
      standard library, as the model receives them. A `None` result is the
      exception the Python call raises. */
  type Utf8Decoder = seq<bv8> -> Option<string>
  type JsonParser = string -> Option<Json>
  type JsonSerializer = Json -> seq<bv8>
}
