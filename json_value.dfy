/**
 * The value `json.loads` hands back to the quiz back end. Parsing itself is
 * not modelled: the parsed document is taken as a value of this type.
 */
module JsonValue {

  datatype Json =
    | JNull
    | JBool(b: bool)
    | JNumber(n: real)
    | JString(str: string)
    | JArray(items: seq<Json>)
    | JObject(fields: map<string, Json>)
}
