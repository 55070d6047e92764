// Java doubles beyond the finite numbers: the IEEE infinities and NaN.
// Operators report "reject" as NegInf (Double.NEGATIVE_INFINITY);
// rounding and overflow of finite values are not modelled.

module Doubles {

  datatype Double = Finite(v: real) | NegInf | PosInf | NaN

  /** IEEE addition on the four kinds of value. */
  function Add(a: Double, b: Double): (r: Double)
    ensures a.Finite? && b.Finite? ==> r == Finite(a.v + b.v)
    ensures r.NaN? <==> (a.NaN? || b.NaN? || (a.NegInf? && b.PosInf?) || (a.PosInf? && b.NegInf?))
    ensures r.NegInf? <==> ((a.NegInf? && !b.NaN? && !b.PosInf?) || (b.NegInf? && !a.NaN? && !a.PosInf?))
  {
    match (a, b)
    case (NaN, _) => NaN
    case (_, NaN) => NaN
    case (NegInf, PosInf) => NaN
    case (PosInf, NegInf) => NaN
    case (NegInf, _) => NegInf
    case (_, NegInf) => NegInf
    case (PosInf, _) => PosInf
    case (_, PosInf) => PosInf
    case (Finite(x), Finite(y)) => Finite(x + y)
  }

  function Neg(a: Double): Double
  {
    match a
    case Finite(x) => Finite(-x)
    case NegInf => PosInf
    case PosInf => NegInf
    case NaN => NaN
  }

  function Sub(a: Double, b: Double): Double
  {
    Add(a, Neg(b))
  }

  /** IEEE division of two finite doubles (the sign of zero is not modelled: 0 counts as +0). */
  function Div(x: real, y: real): Double
  {
    if y != 0.0 then Finite(x / y)
    else if x > 0.0 then PosInf
    else if x < 0.0 then NegInf
    else NaN
  }

  /** d * c for a double d and a finite c. */
  function Mul(d: Double, c: real): (r: Double)
    ensures d.Finite? ==> r == Finite(d.v * c)
    ensures c == 1.0 ==> r == d
  {
    match d
    case Finite(_) => Finite(d.v * c)
    case PosInf => if c > 0.0 then PosInf else if c < 0.0 then NegInf else NaN
    case NegInf => if c > 0.0 then NegInf else if c < 0.0 then PosInf else NaN
    case NaN => NaN
  }

  /** The largest finite double, Double.MAX_VALUE = (2^53 - 1) * 2^971. */
  const MaxValue: real := 179769313486231570814527423731704356798070567525844996598917476803157260780028538760589558632766878171540458953514382464234321326889464182768467546703537516986049910576551282076245490090389328944075868508455133942304583236903222948165808559332123348274797826204144723168738177180919299881250404026184124858368.0

  /** 1.0 / d for any double d. */
  function Recip(d: Double): Double
  {
    match d
    case Finite(x) => Div(1.0, x)
    case PosInf => Finite(0.0)
    case NegInf => Finite(0.0)
    case NaN => NaN
  }

  /**
   * Math.log: `ln` (the natural logarithm, which the model leaves abstract)
   * on positive arguments, -infinity at 0, NaN below 0 and at NaN,
   * +infinity at +infinity.
   */
  function Log(ln: real -> real, d: Double): Double
  {
    match d
    case Finite(x) => if x > 0.0 then Finite(ln(x)) else if x == 0.0 then NegInf else NaN
    case PosInf => PosInf
    case NegInf => NaN
    case NaN => NaN
  }

  function LogOf(ln: real -> real, x: real): Double
  {
    Log(ln, Finite(x))
  }

  /** Swapping the operands of a subtraction negates it, infinities and NaN included. */
  lemma NegatedDifference(a: Double, b: Double)
    ensures Neg(Sub(a, b)) == Sub(b, a)
  {
  }

  /**
   * A proposal's log ratio minus a rejected retyping is +infinity, not a
   * rejection: subtracting -infinity from any finite or +infinite value.
   */
  lemma SubtractingRejection(a: Double)
    requires a.Finite? || a.PosInf?
    ensures Sub(a, NegInf) == PosInf
  {
  }
}
