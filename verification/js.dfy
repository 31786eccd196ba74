/** The few pieces of JavaScript value semantics the storefront's helpers
    depend on: IEEE numbers with NaN and the infinities, `typeof`,
    truthiness, `Number.isFinite`, and the comparison operators. */
module Js {
  import opened Wrappers

  /** A JavaScript number. Finite values are modelled as exact reals:
      rounding of floating point arithmetic is not part of the model. */
  datatype Number = Finite(value: real) | NaN | PosInf | NegInf

  /** A JavaScript value, with objects as property maps. */
  datatype Value =
    | Undefined
    | Null
    | Bool(b: bool)
    | Num(n: Number)
    | Str(s: string)
    | Obj(props: map<string, Value>)

  /** The `typeof` operator (functions and symbols do not occur here). */
  function TypeOf(v: Value): string
  {
    match v
    case Undefined => "undefined"
    case Null => "object"
    case Bool(_) => "boolean"
    case Num(_) => "number"
    case Str(_) => "string"
    case Obj(_) => "object"
  }

  /** ToBoolean: `false`, `0`, `NaN`, `""`, `null` and `undefined` are falsy. */
  predicate Truthy(v: Value)
  {
    match v
    case Undefined => false
    case Null => false
    case Bool(b) => b
    case Num(n) => !(n.NaN? || (n.Finite? && n.value == 0.0))
    case Str(s) => s != ""
    case Obj(_) => true
  }

  /** `Number.isFinite`: unlike the global `isFinite`, it never converts. */
  predicate NumberIsFinite(v: Value)
  {
    v.Num? && !(v.n.NaN? || v.n.PosInf? || v.n.NegInf?)
  }

  /** `isNumber` of productApi.ts: `typeof` says number and `Number.isFinite`
      holds, which is exactly a finite number. */
  predicate IsNumber(v: Value): (b: bool)
    ensures b <==> (v.Num? && v.n.Finite?)
  {
    TypeOf(v) == "number" && NumberIsFinite(v)
  }

  /** An optional numeric field read as a JavaScript value. */
  function FromOption(o: Option<Number>): (v: Value)
    ensures o.None? <==> v == Undefined
    ensures o.Some? ==> v == Num(o.value)
  {
    match o
    case None => Undefined
    case Some(n) => Num(n)
  }

  /** The relational operator `a < b` on numbers: false whenever NaN is involved. */
  predicate Less(a: Number, b: Number)
  {
    match (a, b)
    case (NaN, _) => false
    case (_, NaN) => false
    case (NegInf, NegInf) => false
    case (NegInf, _) => true
    case (_, NegInf) => false
    case (PosInf, _) => false
    case (Finite(x), Finite(y)) => x < y
    case (Finite(_), PosInf) => true
  }

  /** `n > 0`. */
  predicate Positive(n: Number)
  {
    Less(Finite(0.0), n)
  }
}
