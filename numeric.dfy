/**
 * Arithmetic shared by the services: `Math.ceil`, `Number(x.toFixed(2))`
 * and a division that, like a JavaScript number division, yields a
 * non-finite value instead of failing when the divisor is zero.
 * Money is an exact `real`; binary floating-point representation is not
 * modelled.
 */
module Numeric {

  /** `Math.ceil`: the least integer that is not below `x`. */
  function Ceil(x: real): (r: int)
    ensures r as real >= x
    ensures (r - 1) as real < x
  {
    -((-x).Floor)
  }

  /** True when `r` is a whole number of cents. */
  predicate IsCents(r: real) {
    (r * 100.0).Floor as real == r * 100.0
  }

  /**
   * `Number(x.toFixed(2))`: the nearest whole number of cents; a tie is
   * rounded away from zero, because `toFixed` rounds the magnitude and
   * keeps the sign.
   */
  function Round2(x: real): (r: real)
    ensures IsCents(r)
    ensures x >= 0.0 ==> -0.005 < r - x <= 0.005
    ensures x < 0.0 ==> -0.005 <= r - x < 0.005
    ensures x >= 0.0 ==> r >= 0.0
    ensures x <= 0.0 ==> r <= 0.0
  {
    if x >= 0.0 then Cents(NearestCent(x)) else Cents(-NearestCent(-x))
  }

  /** A half-cent tie goes away from zero: 0.125 gives 0.13 and -0.125 gives -0.13. */
  lemma RoundsTiesAwayFromZero()
    ensures Round2(0.125) == 0.13 && Round2(-0.125) == -0.13
  {
    assert NearestCent(0.125) == 13;
  }

  /** The number of cents nearest to a non-negative amount, ties upward. */
  function NearestCent(y: real): (n: int)
    requires y >= 0.0
    ensures n >= 0
    ensures y * 100.0 - 0.5 < n as real <= y * 100.0 + 0.5
  {
    (y * 100.0 + 0.5).Floor
  }

  /** The amount that is `n` cents. */
  function Cents(n: int): (r: real)
    ensures IsCents(r)
    ensures r * 100.0 == n as real
  {
    var r := n as real / 100.0;
    assert r * 100.0 == n as real;
    assert (r * 100.0).Floor == n;
    r
  }

  /**
   * A JavaScript number that results from a division: finite, or one of
   * the non-finite values a zero divisor produces.
   */
  datatype Quotient = Finite(value: real) | PosInfinity | NegInfinity | NotANumber

  /**
   * `n / d` on numbers. A zero divisor is taken as +0 (the stores hold no
   * negative zero): a positive numerator gives Infinity, a negative one
   * -Infinity, and 0/0 gives NaN.
   */
  function Divide(n: real, d: real): (q: Quotient)
    ensures q.Finite? <==> d != 0.0
    ensures q.Finite? ==> q.value * d == n
    ensures q == PosInfinity <==> d == 0.0 && n > 0.0
    ensures q == NotANumber <==> d == 0.0 && n == 0.0
  {
    if d != 0.0 then Finite(n / d)
    else if n > 0.0 then PosInfinity
    else if n < 0.0 then NegInfinity
    else NotANumber
  }

  /** `q > t` on numbers: false whenever `q` is NaN. */
  predicate Exceeds(q: Quotient, t: real) {
    match q
    case Finite(v) => v > t
    case PosInfinity => true
    case NegInfinity => false
    case NotANumber => false
  }

  /**
   * `Number((q * 100).toFixed(2))`: a quotient as a percentage rounded to
   * cents; a non-finite quotient stays non-finite.
   */
  function Percent(q: Quotient): (p: Quotient)
    ensures p.Finite? <==> q.Finite?
    ensures q.Finite? ==> IsCents(p.value)
    ensures q.Finite? && q.value >= 0.0 ==> -0.005 < p.value - q.value * 100.0 <= 0.005
    ensures q.Finite? && q.value < 0.0 ==> -0.005 <= p.value - q.value * 100.0 < 0.005
    ensures !q.Finite? ==> p == q
  {
    match q
    case Finite(v) => Finite(Round2(v * 100.0))
    case _ => q
  }
}
