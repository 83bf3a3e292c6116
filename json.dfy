/**
 * The values a decoded survey submission can hold: what Python's `json`
 * module produces (None, bool, int, float, str, list, dict).
 */
module JsonValue {
  datatype Json =
    | JNull
    | JBool(b: bool)
    | JInt(i: int)
    | JFloat(f: real)
    | JString(s: string)
    | JArray(items: seq<Json>)
    | JObject(fields: seq<(string, Json)>)

  /** Python's `isinstance(v, int)`, which also holds for booleans. */
  predicate IsPyInt(v: Json) { v.JInt? || v.JBool? }

  /** Python's `isinstance(v, (dict, list))`. */
  predicate IsContainer(v: Json) { v.JArray? || v.JObject? }

  /** One submission: a `dict` from field name to value, in API order. */
  type Submission = seq<(string, Json)>

  /** `submission.get(key)`: the first binding of `key`, or None (here JNull). */
  function Lookup(sub: Submission, key: string): (v: Json)
    ensures v != JNull ==> exists i :: 0 <= i < |sub| && sub[i] == (key, v)
    ensures (forall i :: 0 <= i < |sub| ==> sub[i].0 != key) ==> v == JNull
  {
    if sub == [] then JNull else if sub[0].0 == key then sub[0].1 else Lookup(sub[1..], key)
  }
}
