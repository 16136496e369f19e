/** JavaScript values as `JSON.parse` produces them, and the truthiness
    rules that the `||` operator and `!` use on them. */
module JsValues {

  /** A value that may be absent (a missing property, or `null`). */
  datatype Option<+T> = None | Some(value: T) {

    /** `this || default` for a value whose only falsy form is absence. */
    function GetOr(default: T): T {
      match this
      case Some(v) => v
      case None => default
    }
  }

  /** The shapes a JSON property can take after `JSON.parse`. `Object`
      stands for every object and array: all of them are truthy. */
  datatype JsValue =
    | Undefined
    | Null
    | Bool(b: bool)
    | Number(n: real)
    | Str(s: string)
    | Object

  /** ECMAScript ToBoolean: `undefined`, `null`, `false`, `0` and `""` are
      falsy, everything else is truthy. (`NaN` cannot come out of JSON.) */
  predicate Truthy(v: JsValue) {
    match v
    case Undefined => false
    case Null => false
    case Bool(b) => b
    case Number(n) => n != 0.0
    case Str(s) => |s| > 0
    case Object => true
  }

  /** `v || d` for an optional integer property: the property is kept when
      it is present and not `0`, and the default is used otherwise. */
  function OrInt(v: Option<int>, d: int): (r: int)
    ensures v.Some? && v.value != 0 ==> r == v.value
    ensures v.None? || v.value == 0 ==> r == d
  {
    if v.Some? && v.value != 0 then v.value else d
  }
}
