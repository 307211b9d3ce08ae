/**
 * Untyped JSON values as `JSONSerialization` hands them to the app, and the
 * Swift conditional casts (`as? String`, `as? Int`, `as? [String: Any]`,
 * `as? [[String: Any]]`) that the parser applies to them.
 */
module JsonValues {
  import opened Wrappers

  /** A decoded JSON value. `JInt` is an integral number; floating-point
      numbers, booleans and null are all `JOther`. */
  datatype Json =
    | JString(str: string)
    | JInt(num: int)
    | JObject(fields: map<string, Json>)
    | JArray(items: seq<Json>)
    | JOther

  /** Swift's `[String: Any]`. */
  type Dictionary = map<string, Json>

  /** Bounds of Swift's 64-bit `Int`; a cast `as? Int` is exact, so a number
      outside them does not convert. */
  const INT_MIN: int := -0x8000_0000_0000_0000
  const INT_MAX: int := 0x7FFF_FFFF_FFFF_FFFF

  predicate InIntRange(n: int) {
    INT_MIN <= n <= INT_MAX
  }

  /** `dictionary[key] as? String` */
  function StringAt(d: Dictionary, key: string): (r: Option<string>)
    ensures r.Some? <==> key in d && d[key].JString?
    ensures r.Some? ==> d[key] == JString(r.value)
  {
    if key in d && d[key].JString? then Some(d[key].str) else None
  }

  /** `dictionary[key] as? Int` */
  function IntAt(d: Dictionary, key: string): (r: Option<int>)
    ensures r.Some? <==> key in d && d[key].JInt? && InIntRange(d[key].num)
    ensures r.Some? ==> d[key] == JInt(r.value)
  {
    if key in d && d[key].JInt? && InIntRange(d[key].num) then Some(d[key].num) else None
  }

  /** `dictionary[key] as? [String: Any]` */
  function ObjectAt(d: Dictionary, key: string): (r: Option<Dictionary>)
    ensures r.Some? <==> key in d && d[key].JObject?
    ensures r.Some? ==> d[key] == JObject(r.value)
  {
    if key in d && d[key].JObject? then Some(d[key].fields) else None
  }

  /** `json as? [[String: Any]]`: an array all of whose elements are objects;
      one element of another kind makes the whole cast fail. */
  function ObjectArray(j: Json): (r: Option<seq<Dictionary>>)
    ensures r.Some? <==> j.JArray? && forall i :: 0 <= i < |j.items| ==> j.items[i].JObject?
    ensures r.Some? ==> |r.value| == |j.items| &&
                        forall i :: 0 <= i < |r.value| ==> j.items[i] == JObject(r.value[i])
  {
    if j.JArray? && forall i :: 0 <= i < |j.items| ==> j.items[i].JObject? then
      Some(seq(|j.items|, i requires 0 <= i < |j.items| => j.items[i].fields))
    else
      None
  }
}
