/**
 * The values a controller reads out of a JSON request body, keeping JavaScript's
 * distinction between a field that is absent (`undefined`) and one that is
 * explicitly `null`, together with JavaScript's notion of truthiness, which the
 * controllers use to decide whether a field was "given".
 */
module JsValues {

  import opened Wrappers

  /** A JSON scalar as JavaScript sees it. Arrays and objects are not modelled. */
  datatype Value = Undefined | Null | Bool(b: bool) | Num(n: real) | Str(s: string)

  /** Document identifiers (MongoDB ObjectIds and user ids) are non-empty strings. */
  type Id = s: string | s != "" witness "0"

  /** JavaScript truthiness: `undefined`, `null`, `false`, `0` and `""` are falsy. */
  predicate Truthy(v: Value)
  {
    match v
    case Undefined => false
    case Null => false
    case Bool(b) => b
    case Num(n) => n != 0.0
    case Str(s) => s != ""
  }

  /** The JavaScript expression `a || b`. */
  function Or(a: Value, b: Value): Value
  {
    if Truthy(a) then a else b
  }

  /** The identifier a body field names, when it is a non-empty string. */
  function AsId(v: Value): (r: Option<Id>)
    ensures r.Some? <==> v.Str? && v.s != ""
    ensures r.Some? ==> v == Str(r.value)
  {
    if v.Str? && v.s != "" then Some(v.s) else None
  }
}
