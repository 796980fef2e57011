/** Parsed JSON, as the whole model sees it. */
module JsonValues {

  /** A number written as an integer is a `JInt`; any other is a double, which is
      the binary fraction `mantissa / 2^halvings` in lowest terms, so that 2.0 is
      `JFloat(2, 0)` and not `JInt(2)`. */
  datatype Json =
    | JNull
    | JBool(flag: bool)
    | JInt(number: int)
    | JFloat(mantissa: int, halvings: nat)
    | JText(text: string)
    | JArray(items: seq<Json>)
    | JObject(members: Members)

  type Members = map<string, Json>

  /** An absent member reads as null. */
  function Get(m: Members, key: string): Json {
    GetOr(m, key, JNull)
  }

  function GetOr(m: Members, key: string, absent: Json): Json {
    if key in m then m[key] else absent
  }

  function PowerOfTwo(n: nat): (r: int)
    ensures r >= 1
  {
    if n == 0 then 1 else 2 * PowerOfTwo(n - 1)
  }

  /** Whether a non-integer number occurs anywhere. */
  predicate HasFloat(value: Json) {
    match value
    case JFloat(_, _) => true
    case JArray(items) => exists i :: 0 <= i < |items| && HasFloat(items[i])
    case JObject(members) => exists k :: k in members && HasFloat(members[k])
    case _ => false
  }
}
