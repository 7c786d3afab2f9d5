/** JavaScript values as the extension keeps them in its JSON documents, with
    the truthiness and number-conversion rules that its `||`, `!` and `>`
    depend on. */
module Js {

  /** The conventional optional value. */
  datatype Option<+T> = None | Some(value: T)

  /** A scalar JSON value. An absent key of an object reads as `undefined`,
      which every caller here treats exactly like `null`. */
  datatype JsValue = Null | Bool(b: bool) | Num(n: real) | Str(s: string)

  /** A JSON object: string keys to scalar values. */
  type Object = map<string, JsValue>

  /** JavaScript truthiness: `null`, `false`, `0` and `""` are falsy. */
  predicate Truthy(v: JsValue)
  {
    match v
    case Null => false
    case Bool(b) => b
    case Num(n) => n != 0.0
    case Str(s) => s != ""
  }

  /** `a || b` */
  function Or(a: JsValue, b: JsValue): JsValue
  {
    if Truthy(a) then a else b
  }

  /** The number a relational operator compares a value as; `None` stands for
      NaN. Numeric text other than the empty string is not parsed and reads
      as NaN. */
  function ToNumber(v: JsValue): Option<real>
  {
    match v
    case Null => Some(0.0)
    case Bool(b) => Some(if b then 1.0 else 0.0)
    case Num(n) => Some(n)
    case Str(s) => if s == "" then Some(0.0) else None
  }

  /** A value the `+` operator treats as a number (text would be concatenated). */
  predicate Numeric(v: JsValue)
  {
    !v.Str?
  }

  /** `v + d` for a numeric `v`. */
  function Plus(v: JsValue, d: real): (r: JsValue)
    requires Numeric(v)
    ensures r.Num? && ToNumber(v) == Some(r.n - d)
  {
    Num(ToNumber(v).value + d)
  }
}
