/**
  The values Python's `json.loads` produces, and Python's truth test on them.
  JSON integers become Python `int`, other numbers `float` (finite ones are
  exact reals here; `NaN` and `Infinity`, which `json.loads` also accepts,
  are `JNonFinite`), and JSON objects become `dict`.
 */
module Json {

  datatype Json =
    | JNull
    | JBool(b: bool)
    | JInt(i: int)
    | JFloat(f: real)
    | JNonFinite
    | JString(s: string)
    | JArray(items: seq<Json>)
    | JObject(fields: map<string, Json>)

  /** Python's `bool(v)`: `None`, `False`, zero, and empty strings, lists and
      dicts are false; everything else, `nan` and `inf` included, is true. */
  predicate Truthy(v: Json) {
    match v
    case JNull => false
    case JBool(b) => b
    case JInt(i) => i != 0
    case JFloat(f) => f != 0.0
    case JNonFinite => true
    case JString(s) => |s| > 0
    case JArray(items) => |items| > 0
    case JObject(fields) => |fields| > 0
  }
}
