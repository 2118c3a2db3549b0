/** The values `json.loads` produces, as far as the chart pipeline looks at them. */
module JsonValues {

  /** A decoded JSON value. Objects are dictionaries: a key given twice keeps its last value. */
  datatype Json =
    | JNull
    | JBool(b: bool)
    | JNumber(n: int)
    | JString(s: string)
    | JArray(items: seq<Json>)
    | JObject(fields: map<string, Json>)

  /** What `json.loads` does with a text: it returns a value, raises `json.JSONDecodeError`, or
      raises some other exception (a `RecursionError` on very deeply nested input, say). */
  datatype Decoded = Parsed(value: Json) | SyntaxError | OtherError
}
