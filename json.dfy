/** The JSON values `json.loads` produces, and the decoder itself as a parameter. */
module Json {

  /** A decoded JSON value. Numbers are integers: a fractional number cannot be
      represented. */
  datatype Json =
    | JNull
    | JBool(b: bool)
    | JNum(n: int)
    | JStr(s: string)
    | JArr(items: seq<Json>)
    | JObj(fields: map<string, Json>)

  /** The outcome of `json.loads` on one text: it raises `JSONDecodeError` or yields a value. */
  datatype Decoded = DecodeError | Value(v: Json)

  /** `d.get(key, default)` on a decoded object. A key that is present yields its value,
      even when that value is `null`. */
  function GetOr(m: map<string, Json>, key: string, default: Json): (r: Json)
    ensures key in m ==> r == m[key]
    ensures key !in m ==> r == default
  {
    if key in m then m[key] else default
  }
}
