/** Parsed JSON values as Python's `json` module hands them to the program,
    together with the handful of Python operations the program applies to
    them: truthiness, `dict.get` and hashability. */
module JsonValues {

  /** A JSON number is a Python `int` or `float`; both are modelled by a real. */
  datatype Json =
    | JNull
    | JBool(b: bool)
    | JNum(n: real)
    | JStr(s: string)
    | JArr(items: seq<Json>)
    | JObj(fields: map<string, Json>)

  /** Python truthiness: `None`, `False`, zero and empty containers are falsy. */
  predicate Truthy(j: Json)
  {
    match j
    case JNull => false
    case JBool(b) => b
    case JNum(n) => n != 0.0
    case JStr(s) => |s| > 0
    case JArr(items) => |items| > 0
    case JObj(fields) => |fields| > 0
  }

  /** `d.get(k, default)`: the stored value, or `default` when `k` is absent. */
  function GetOr(fields: map<string, Json>, k: string, default: Json): (v: Json)
    ensures k in fields ==> v == fields[k]
    ensures k !in fields ==> v == default
  {
    if k in fields then fields[k] else default
  }

  /** `d.get(k)`: a missing key and an explicit JSON `null` both read as `None`. */
  function Get(fields: map<string, Json>, k: string): (v: Json)
    ensures v == JNull <==> k !in fields || fields[k] == JNull
    ensures k in fields ==> v == fields[k]
  {
    GetOr(fields, k, JNull)
  }

  /** Lists and dicts cannot be hashed, so `x in some_dict` raises for them. */
  predicate Hashable(j: Json)
  {
    !j.JArr? && !j.JObj?
  }
}
