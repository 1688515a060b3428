/** JSON (and YAML) documents as values, with Python's dictionary semantics. */
module Json {
  import opened Outcomes

  /** A decoded JSON document, as `json.loads` or `response.json()` returns it. */
  datatype Json =
    | JNull
    | JBool(b: bool)
    | JNum(n: int)
    | JStr(s: string)
    | JArr(items: seq<Json>)
    | JObj(fields: map<string, Json>)

  /** The empty object that the transport substitutes for a body that is not JSON. */
  const EmptyObject: Json := JObj(map[])

  /** `j[k]`: a dictionary lookup, KeyError when the key is absent, TypeError on a non-dictionary. */
  function Get(j: Json, k: string): (r: Result<Json>)
    ensures r.Ok? <==> j.JObj? && k in j.fields
    ensures r.Ok? ==> r.value == j.fields[k]
    ensures r.Raised? && r.fault == KeyError <==> j.JObj? && k !in j.fields
    ensures !r.SysExit?
  {
    match j
    case JObj(m) => if k in m then Ok(m[k]) else Raised(KeyError)
    case _ => Raised(TypeError)
  }

  /** `j.get(k, default)` on a dictionary; AttributeError on anything else. */
  function GetOr(j: Json, k: string, default: Json): (r: Result<Json>)
    ensures r.Ok? <==> j.JObj?
    ensures j.JObj? && k in j.fields ==> r == Ok(j.fields[k])
    ensures j.JObj? && k !in j.fields ==> r == Ok(default)
  {
    match j
    case JObj(m) => if k in m then Ok(m[k]) else Ok(default)
    case _ => Raised(AttributeError)
  }

  /** Python truthiness of a decoded value. */
  predicate Truthy(j: Json) {
    match j
    case JNull => false
    case JBool(b) => b
    case JNum(n) => n != 0
    case JStr(s) => s != ""
    case JArr(items) => |items| > 0
    case JObj(m) => |m| > 0
  }

  /** `j == s` for a Python string literal `s`: only a JSON string with the same text is equal. */
  predicate IsText(j: Json, s: string) {
    j == JStr(s)
  }

  /** A value used where the code needs a `str` (URL, token); anything else is a TypeError here. */
  function AsText(j: Json): (r: Result<string>)
    ensures r.Ok? <==> j.JStr?
    ensures r.Ok? ==> j == JStr(r.value)
  {
    if j.JStr? then Ok(j.s) else Raised(TypeError)
  }

  /** `for x in j`: a list gives its items, a string its characters. A dictionary's keys come in
      insertion order, which a `map` does not keep, so iterating one is not modelled and
      raises TypeError here as it does for numbers, booleans and `None`. */
  function Elements(j: Json): (r: Result<seq<Json>>)
    ensures r.Ok? || r == Raised(TypeError)
    ensures j.JArr? ==> r == Ok(j.items)
    ensures j.JStr? ==> r.Ok? && |r.value| == |j.s| && forall i :: 0 <= i < |j.s| ==> r.value[i] == JStr([j.s[i]])
    ensures !j.JArr? && !j.JStr? ==> r == Raised(TypeError)
  {
    match j
    case JArr(items) => Ok(items)
    case JStr(text) => Ok(seq(|text|, i requires 0 <= i < |text| => JStr([text[i]])))
    case _ => Raised(TypeError)
  }
}
