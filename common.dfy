/** Values shared by every part of the model: an optional value, and the
    JSON values that the search-results provider returns and JSON.parse produces. */
module Common {

  /** `None` stands for JavaScript's `undefined` (a missing property) or a
      failed library call (JSON.parse or `new URL` throwing). */
  datatype Option<+T> = None | Some(value: T)

  /** A decoded JSON value. Numbers are kept as integers: only their
      truthiness (zero or not) matters to the code modelled here. */
  datatype Json =
    | JNull
    | JBool(b: bool)
    | JNum(n: int)
    | JStr(s: string)
    | JArr(items: seq<Json>)
    | JObj(fields: map<string, Json>)

  /** JavaScript truthiness of a JSON value: `null`, `false`, `0` and `""` are
      falsy; every array and every object, even an empty one, is truthy. */
  predicate Truthy(j: Json)
    ensures j.JArr? || j.JObj? ==> Truthy(j)
    ensures j.JNull? || j == JBool(false) || j == JNum(0) || j == JStr("") ==> !Truthy(j)
  {
    match j
    case JNull => false
    case JBool(b) => b
    case JNum(n) => n != 0
    case JStr(s) => s != ""
    case JArr(_) => true
    case JObj(_) => true
  }

  /** Property access `j[key]`: only an object has the keys of a JSON document;
      on any other value the property is `undefined`. */
  function Get(j: Json, key: string): (v: Option<Json>)
    ensures v.Some? <==> j.JObj? && key in j.fields
    ensures v.Some? ==> v.value == j.fields[key]
  {
    if j.JObj? && key in j.fields then Some(j.fields[key]) else None
  }

  /** The string held in property `key`, when it is a non-empty string
      (the case in which `j[key] || ...` picks it). */
  predicate HasText(j: Json, key: string) {
    var v := Get(j, key);
    v.Some? && v.value.JStr? && v.value.s != ""
  }
}
