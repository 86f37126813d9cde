/**
 * The JSON values that the task file holds once decoded, as Python's `json`
 * module presents them: null, booleans, integers, strings, lists and dicts
 * keyed by strings.
 */
module Json {

  datatype Value =
    | JNull
    | JBool(b: bool)
    | JInt(i: int)
    | JString(s: string)
    | JArray(items: seq<Value>)
    | JObject(fields: map<string, Value>)
}
