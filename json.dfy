/**
 * The untyped JavaScript values the configuration loader hands over
 * (the result of parsing YAML), with the few JavaScript operations the
 * configuration parser applies to them.
 */
module Json {

  /** A JavaScript value. Numbers are integers here; floating point is not modelled. */
  datatype Json =
    | JUndefined
    | JNull
    | JBool(b: bool)
    | JNum(n: int)
    | JStr(str: string)
    | JArr(elems: seq<Json>)
    | JObj(fields: map<string, Json>)

  /** `typeof j === "object"`: true of objects, arrays and, famously, `null`. */
  predicate IsObjectLike(j: Json) {
    j.JObj? || j.JArr? || j.JNull?
  }

  /** `j == null`: loose equality with `null` holds for `null` and `undefined`. */
  predicate IsNullish(j: Json) {
    j.JNull? || j.JUndefined?
  }

  /** JavaScript falsiness: `undefined`, `null`, `false`, `0` and `""`. */
  predicate IsFalsy(j: Json) {
    j.JUndefined? || j.JNull? || j == JBool(false) || j == JNum(0) || j == JStr("")
  }

  /**
   * Property access `j[key]` on a value that is neither `null` nor `undefined`
   * (on those two JavaScript throws a TypeError, which callers model).
   * A missing property, and any of the names used here on a non-object, reads as `undefined`.
   */
  function Get(j: Json, key: string): (r: Json)
    requires !IsNullish(j)
    ensures !j.JObj? ==> r == JUndefined
    ensures j.JObj? ==> r == if key in j.fields then j.fields[key] else JUndefined
  {
    if j.JObj? && key in j.fields then j.fields[key] else JUndefined
  }
}
