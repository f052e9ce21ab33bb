/** JSON values as `JSON.parse` produces them, and the JavaScript operations the program applies to them. */
module JsonValues {
  import opened Wrappers

  /** A parsed JSON value; numbers are modelled as integers, objects as maps (key order is not kept). */
  datatype Json = JNull | JBool(b: bool) | JNum(n: int) | JStr(s: string) | JArr(items: seq<Json>) | JObj(fields: map<string, Json>)

  /** JavaScript truthiness of a JSON value. */
  predicate Truthy(j: Json) {
    match j
    case JNull => false
    case JBool(b) => b
    case JNum(n) => n != 0
    case JStr(s) => s != ""
    case _ => true
  }

  /** `v?.key` on a value that may be missing: only an object with that key yields something. */
  function Get(v: Option<Json>, key: string): (r: Option<Json>)
    ensures r.Some? <==> v.Some? && v.value.JObj? && key in v.value.fields
    ensures r.Some? ==> r.value == v.value.fields[key]
  {
    if v.Some? && v.value.JObj? && key in v.value.fields then Some(v.value.fields[key]) else None
  }

  /** `v ?? d`: the default replaces a missing value and `null`, and nothing else. */
  function Coalesce(v: Option<Json>, d: Json): (r: Json)
    ensures v.Some? && v.value != JNull ==> r == v.value
    ensures v.None? || v.value == JNull ==> r == d
  {
    if v.Some? && v.value != JNull then v.value else d
  }
}
