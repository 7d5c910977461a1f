/** The float64 values numpy stores, without rounding: a finite real, one of the
    two infinities, or NaN. */
module Floats {

  datatype Float = Fin(x: real) | PosInf | NegInf | NaN

  /** The largest finite float64, (2^53 - 1) * 2^971. */
  const MaxFinite: real := 179769313486231570814527423731704356798070567525844996598917476803157260780028538760589558632766878171540458953514382464234321326889464182768467546703537516986049910576551282076245490090389328944075868508455133942304583236903222948165808559332123348274797826204144723168738177180919299881250404026184124858368.0

  /** numpy.nan_to_num with its defaults: NaN reads as 0, an infinity as the
      finite float of largest magnitude with the same sign. */
  function NanToNum(v: Float): real
  {
    match v
    case Fin(x) => x
    case PosInf => MaxFinite
    case NegInf => -MaxFinite
    case NaN => 0.0
  }

  /** The order on non-NaN floats. */
  predicate LessEq(a: Float, b: Float)
    requires !a.NaN? && !b.NaN?
  {
    a.NegInf? || b.PosInf? || (a.Fin? && b.Fin? && a.x <= b.x)
  }

  /** IEEE addition, exact on finite operands. */
  function Plus(a: Float, b: Float): Float
  {
    match (a, b)
    case (NaN, _) => NaN
    case (_, NaN) => NaN
    case (PosInf, NegInf) => NaN
    case (NegInf, PosInf) => NaN
    case (PosInf, _) => PosInf
    case (_, PosInf) => PosInf
    case (NegInf, _) => NegInf
    case (_, NegInf) => NegInf
    case (Fin(x), Fin(y)) => Fin(x + y)
  }

  /** IEEE division by a finite non-zero divisor, exact on finite operands. */
  function DivBy(a: Float, d: real): Float
    requires d != 0.0
  {
    match a
    case Fin(x) => Fin(x / d)
    case PosInf => if d > 0.0 then PosInf else NegInf
    case NegInf => if d > 0.0 then NegInf else PosInf
    case NaN => NaN
  }
}
