/** The JSON values a request body can decode to. Numbers are exact reals:
    the model does not distinguish JSON integers from floats. */
module Json {

  datatype Json =
    | JNull
    | JBool(b: bool)
    | JNum(n: real)
    | JStr(s: string)
    | JArray(items: seq<Json>)
    | JObject(fields: map<string, Json>)
}
