/**
 * Parsed JSON values as Python's `json` module hands them over. Parsing and
 * printing are outside the model: a parser is a parameter of type
 * `string -> Option<Json>` whose None stands for a `JSONDecodeError`.
 */
module JsonValues {

  /** The extension of the files holding a stored reply, in both scripts. */
  const JsonSuffix := ".json"

  datatype Json =
    | JNull
    | JBool(b: bool)
    | JNumber(n: real)
    | JString(s: string)
    | JArray(items: seq<Json>)
    | JObject(fields: map<string, Json>)
}
