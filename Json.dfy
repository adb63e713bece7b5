/**
 * Already-parsed JSON as QJsonValue / QJsonObject present it. Numbers are exact
 * rationals here; Qt stores them as doubles or 64-bit integers.
 */
module Json {
  import opened Decimal

  datatype JValue =
    | JNull
    | JBool(b: bool)
    | JNumber(x: real)
    | JString(s: string)
    | JArray(items: seq<JValue>)
    | JObject(fields: map<string, JValue>)
    | JUndefined   // what QJsonObject::value returns for a missing key

  type JsonObject = map<string, JValue>

  /** A QJsonDocument after parsing: an object, or anything else (an array, or a parse error). */
  datatype Document = NotAnObject | AnObject(fields: JsonObject)

  /** QJsonObject::value: the value stored under `key`, or Undefined. */
  function Value(o: JsonObject, key: string): (v: JValue)
    ensures v != JUndefined ==> key in o
    ensures key in o ==> v == o[key]
  {
    if key in o then o[key] else JUndefined
  }

  /** QJsonValue::toString(): the string held, or the empty string for every other kind. */
  function ToStringOr(v: JValue): (s: string)
    ensures v.JString? ==> s == v.s
    ensures !v.JString? ==> s == ""
  {
    match v
    case JString(t) => t
    case _ => ""
  }

  /** Whether a JSON number is a whole number that fits an int. */
  predicate IsInt32Number(x: real) {
    x == x.Floor as real && MinInt32 <= x.Floor <= MaxInt32
  }

  /** QJsonValue::toInt(default): a whole number within int range, else `default`. */
  function ToIntOr(v: JValue, default: Int32): (n: Int32)
    ensures n != default ==> v.JNumber? && IsInt32Number(v.x) && n == v.x.Floor
    ensures v.JNumber? && IsInt32Number(v.x) ==> n == v.x.Floor
  {
    match v
    case JNumber(x) => if IsInt32Number(x) then x.Floor else default
    case _ => default
  }
}
