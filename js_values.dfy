/**
 * The untyped JSON request bodies the participant routes destructure, and the
 * three JavaScript tests they apply to them: truthiness, `typeof` and a
 * property read that yields `undefined` when the property is not there.
 */
module JsValues {

  /** A JavaScript value the routes test: what a parsed request body holds
      (arrays left out), `Undefined` for a missing field, and `NaN` for
      `isNaN`. Numbers stay abstract: `Num` is any number other than NaN. */
  datatype Value =
    | Undefined
    | Null
    | Bool(b: bool)
    | Num(n: real)
    | NaN
    | Str(s: string)
    | Obj(fields: map<string, Value>)

  /** `!v` in JavaScript. */
  predicate Falsy(v: Value)
  {
    match v
    case Undefined => true
    case Null => true
    case Bool(b) => !b
    case Num(n) => n == 0.0
    case NaN => true
    case Str(s) => s == ""
    case Obj(_) => false
  }

  /** `v.name` for the property names the routes read: the property of an
      object, `undefined` when it has none or when `v` is not an object at
      all. This holds because no prototype carries any of those names (in
      general `"ab".length` is 2). */
  function Get(v: Value, name: string): Value
  {
    if v.Obj? && name in v.fields then v.fields[name] else Undefined
  }

  /** `typeof v === 'boolean'`. */
  predicate IsBoolean(v: Value)
  {
    v.Bool?
  }

  /** `typeof v === 'number'`; NaN is a number too. */
  predicate IsNumber(v: Value)
  {
    v.Num? || v.NaN?
  }
}
