/**
 * The JSON values that travel between the form and the prediction service.
 * Nested arrays and objects are not needed: no field of the request accepts one.
 */
module Json {

  datatype Value =
    | Number(n: real)
    | Str(s: string)
    | Bool(b: bool)
    | Null

  /** A JSON object: member names to values. */
  type Object = map<string, Value>
}
