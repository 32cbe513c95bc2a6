/**
 * The JavaScript values that `JSON.parse` produces, property access on them,
 * and `Number(...)` coercion. The parser itself and the conversion of a
 * string to a number are not modelled: they are supplied as a `Runtime`.
 */
module Json {
  import opened Wrappers

  /** A JavaScript number: finite, or one of NaN, Infinity, -Infinity. */
  datatype Num = Finite(value: real) | NonFinite

  datatype Json =
    | JNull
    | JBool(b: bool)
    | JNumber(n: Num)
    | JString(s: string)
    | JArray(items: seq<Json>)
    | JObject(fields: map<string, Json>)

  /** The host functions the validator calls: `JSON.parse` (None when it throws)
      and `Number(s)` on a string. */
  datatype Runtime = Runtime(parse: string -> Option<Json>, stringToNumber: string -> Num)

  /** `value.key`: `undefined` (None) unless `value` is an object holding `key`. */
  function Get(value: Json, key: string): (r: Option<Json>)
    ensures r.Some? <==> value.JObject? && key in value.fields
  {
    if value.JObject? && key in value.fields then Some(value.fields[key]) else None
  }

  /** `typeof v === "string"`. */
  predicate IsString(v: Option<Json>) {
    v.Some? && v.value.JString?
  }

  /** `Number(v)`. Arrays other than `[]` coerce through their string form, which is
      not modelled: they count as NaN here. */
  function ToNumber(rt: Runtime, v: Option<Json>): Num {
    match v
    case None => NonFinite
    case Some(JNull) => Finite(0.0)
    case Some(JBool(b)) => Finite(if b then 1.0 else 0.0)
    case Some(JNumber(n)) => n
    case Some(JString(s)) => rt.stringToNumber(s)
    case Some(JArray(items)) => if items == [] then Finite(0.0) else NonFinite
    case Some(JObject(_)) => NonFinite
  }
}
