/**
 * Values produced by decoding JSON text, as the extraction adapter sees them,
 * with Python's truthiness and `str()` rendering.
 *
 * Objects are maps (key order plays no role in the modelled code). Floating
 * point numbers are not modelled.
 */
module JsonValues {
  import opened Wrappers
  import opened Text

  datatype Json =
    | JNull
    | JBool(b: bool)
    | JInt(n: int)
    | JString(s: string)
    | JArray(items: seq<Json>)
    | JObject(fields: map<string, Json>)

  /** Python's `bool(v)`: `None`, `False`, `0` and empty containers are false. */
  predicate Truthy(v: Json) {
    match v
    case JNull => false
    case JBool(b) => b
    case JInt(n) => n != 0
    case JString(s) => s != ""
    case JArray(xs) => xs != []
    case JObject(m) => m != map[]
  }

  /** `d.get(key)`: an absent key reads as `None`. */
  function Get(m: map<string, Json>, key: string): (v: Json)
    ensures key !in m ==> v == JNull
    ensures key in m ==> v == m[key]
  {
    if key in m then m[key] else JNull
  }

  /** `a or b`: the first operand when it is truthy, else the second. */
  function Or(a: Json, b: Json): (v: Json)
    ensures Truthy(a) ==> v == a
    ensures !Truthy(a) ==> v == b
  {
    if Truthy(a) then a else b
  }

  /**
   * `str(v)` for scalars. Nested arrays and objects render as the empty
   * string: their Python `repr` is not part of this model.
   */
  function PyStr(v: Json): string {
    match v
    case JNull => "None"
    case JBool(b) => if b then "True" else "False"
    case JInt(n) => IntToDecimal(n)
    case JString(s) => s
    case JArray(_) => ""
    case JObject(_) => ""
  }
}
