/** The values `JSON.parse` produces, and the optional-chaining reads (`v?.key`, `v?.[0]`) and
    truthiness tests the extension applies to them. Parsing itself is a library call that is not
    part of this model; it appears as a function parameter wherever the source calls it. */
module Json {
  import opened Wrappers

  /** Numbers are kept as integers: only their truthiness is ever used. */
  datatype Json =
    | JNull
    | JBool(b: bool)
    | JNum(n: int)
    | JStr(s: string)
    | JArr(items: seq<Json>)
    | JObj(fields: map<string, Json>)

  /** `JSON.parse` as a parameter: a value, or the message of the `SyntaxError` it throws. */
  type JsonParser = string -> Result<Json, string>

  /** `v?.key`, with `None` standing for `undefined`. */
  function Get(v: Option<Json>, key: string): (r: Option<Json>)
    ensures r.Some? ==> v.Some? && v.value.JObj? && key in v.value.fields && r.value == v.value.fields[key]
    ensures v.Some? && v.value.JObj? && key in v.value.fields ==> r.Some?
  {
    match v
    case Some(JObj(f)) => if key in f then Some(f[key]) else None
    case _ => None
  }

  /** `v?.[0]`: the first element of an array, the property "0" of an object, the first character of a string. */
  function First(v: Option<Json>): Option<Json> {
    match v
    case Some(JArr(items)) => if |items| > 0 then Some(items[0]) else None
    case Some(JObj(f)) => if "0" in f then Some(f["0"]) else None
    case Some(JStr(s)) => if |s| > 0 then Some(JStr(s[..1])) else None
    case _ => None
  }

  /** JavaScript truthiness, with `None` for `undefined`. */
  predicate Truthy(v: Option<Json>) {
    match v
    case None => false
    case Some(JNull) => false
    case Some(JBool(b)) => b
    case Some(JNum(n)) => n != 0
    case Some(JStr(s)) => s != ""
    case Some(_) => true
  }

  /** The string behind `v`, when `v` is a non-empty string: the case in which `v || fallback`
      yields `v` itself as a string. */
  function NonEmptyString(v: Option<Json>): (r: Option<string>)
    ensures r.Some? <==> Truthy(v) && v.value.JStr?
    ensures r.Some? ==> r.value != "" && v == Some(JStr(r.value))
  {
    match v
    case Some(JStr(s)) => if s != "" then Some(s) else None
    case _ => None
  }
}
