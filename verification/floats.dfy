/** The double-precision values the computation can produce, reduced to exact
    reals plus IEEE 754's three special values. Rounding and signed zero are
    not modelled: every zero behaves as +0. */
module Floats {

  datatype Float = Num(v: real) | PosInf | NegInf | NaN
  {
    predicate IsInf()
    {
      PosInf? || NegInf?
    }
  }

  function Negate(x: Float): (r: Float)
    ensures r.NaN? <==> x.NaN?
    ensures r.PosInf? <==> x.NegInf?
    ensures r.NegInf? <==> x.PosInf?
    ensures r.Num? ==> x.Num? && r.v == -x.v
  {
    match x
    case Num(a) => Num(-a)
    case PosInf => NegInf
    case NegInf => PosInf
    case NaN => NaN
  }

  /** IEEE 754 division (section 7.3 of IEEE 754-2008 for the zero divisor). */
  function Div(x: Float, y: Float): (r: Float)
    ensures r.NaN? <==> x.NaN? || y.NaN? || (x.IsInf() && y.IsInf())
                        || (x == Num(0.0) && y == Num(0.0))
    ensures r.Num? <==> x.Num? && (y.IsInf() || (y.Num? && y.v != 0.0))
    ensures r.Num? && y.Num? ==> r.v * y.v == x.v
    ensures r.Num? && y.IsInf() ==> r.v == 0.0
    ensures r.PosInf? <==> (x.PosInf? && y.Num? && y.v >= 0.0)
                           || (x.NegInf? && y.Num? && y.v < 0.0)
                           || (x.Num? && x.v > 0.0 && y == Num(0.0))
    ensures r.NegInf? <==> (x.NegInf? && y.Num? && y.v >= 0.0)
                           || (x.PosInf? && y.Num? && y.v < 0.0)
                           || (x.Num? && x.v < 0.0 && y == Num(0.0))
  {
    match (x, y)
    case (NaN, _) => NaN
    case (_, NaN) => NaN
    case (Num(a), Num(b)) =>
      if b != 0.0 then Num(a / b)
      else if a > 0.0 then PosInf
      else if a < 0.0 then NegInf
      else NaN
    case (Num(_), _) => Num(0.0)
    case (_, Num(b)) => if b >= 0.0 then x else Negate(x)
    case (_, _) => NaN
  }

  /** numpy's order on values other than NaN: -inf, then the reals, then +inf. */
  predicate Le(x: Float, y: Float)
    requires !x.NaN? && !y.NaN?
  {
    x.NegInf? || y.PosInf? || (x.Num? && y.Num? && x.v <= y.v)
  }

  /** The comparison `x <= 1` of numpy: false for NaN. */
  predicate AtMostOne(x: Float)
  {
    match x
    case Num(a) => a <= 1.0
    case NegInf => true
    case _ => false
  }
}
