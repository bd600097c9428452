/**
 * The rounding and division operations of the two source languages, stated
 * over exact rationals (`real`). JavaScript numbers and Python floats are
 * IEEE-754 doubles; where a double computation lands on the other side of a
 * rounding edge than the exact value, this model follows the exact value.
 */
module Numeric {

  /** Largest integer not above `x`. */
  function Floor(x: real): (r: int)
    ensures r as real <= x < r as real + 1.0
  {
    x.Floor
  }

  /** JavaScript `Math.round`: the nearest integer, halves rounded up. */
  function JsRound(x: real): (r: int)
    ensures x - 0.5 < r as real <= x + 0.5
  {
    Floor(x + 0.5)
  }

  /** Python `int(x)` on a float: truncation toward zero. */
  function PyInt(x: real): (r: int)
    ensures x >= 0.0 ==> 0 <= r && r as real <= x < r as real + 1.0
    ensures x < 0.0 ==> r <= 0 && r as real - 1.0 < x <= r as real
  {
    if x >= 0.0 then Floor(x) else -Floor(-x)
  }

  function Abs(x: real): (r: real)
    ensures r >= 0.0 && (r == x || r == -x)
  {
    if x < 0.0 then -x else x
  }

  /**
   * The text `x.toFixed(1)` as a sign and a whole number of tenths: the sign
   * is written when `x < 0`, and the magnitude is rounded to the nearest
   * tenth with halves rounded away from zero.
   */
  datatype Fixed1 = Fixed1(negative: bool, tenths: nat)

  function ValueOf(f: Fixed1): real
  {
    if f.negative then -(f.tenths as real) / 10.0 else f.tenths as real / 10.0
  }

  function ToFixed1(x: real): (f: Fixed1)
    ensures f.negative <==> x < 0.0
    ensures -0.05 <= ValueOf(f) - x <= 0.05
  {
    var t := Floor(Abs(x) * 10.0 + 0.5);
    Fixed1(x < 0.0, t)
  }

  /** A quotient of bounded numerator and positive divisor lies within the bounds. */
  lemma QuotientBounds(a: real, d: real, lo: real, hi: real)
    requires d > 0.0 && lo * d <= a <= hi * d
    ensures lo <= a / d <= hi
  {
    var q := a / d;
    assert q * d == a;
    assert (q - hi) * d <= 0.0;
    assert (q - lo) * d >= 0.0;
  }

  /** Division by a common positive divisor distributes over a sum. */
  lemma QuotientSum(a: real, b: real, d: real)
    requires d > 0.0
    ensures (a + b) / d == a / d + b / d
  {
    var p := a / d;
    var q := b / d;
    assert p * d == a && q * d == b;
    assert (p + q) * d == a + b;
  }

  /** A JavaScript number produced by a division that the code does not guard. */
  datatype JsNumber = Finite(v: real) | PosInfinity | NegInfinity | NaN

  /** `a / b` on doubles whose divisor is `+0` when it is zero. */
  function JsDivide(a: real, b: real): (r: JsNumber)
    ensures b != 0.0 ==> r == Finite(a / b)
    ensures b == 0.0 ==> (r == PosInfinity <==> a > 0.0) && (r == NegInfinity <==> a < 0.0) && (r == NaN <==> a == 0.0)
  {
    if b != 0.0 then Finite(a / b)
    else if a > 0.0 then PosInfinity
    else if a < 0.0 then NegInfinity
    else NaN
  }

  /** `n * k` for a positive constant `k`. */
  function JsScale(n: JsNumber, k: real): JsNumber
    requires k > 0.0
  {
    match n
    case Finite(v) => Finite(v * k)
    case _ => n
  }

  /** `n > k`: false for NaN, true for +Infinity. */
  predicate JsGreater(n: JsNumber, k: real)
  {
    match n
    case Finite(v) => v > k
    case PosInfinity => true
    case NegInfinity => false
    case NaN => false
  }

  /** `n < k`: false for NaN, true for -Infinity. */
  predicate JsLess(n: JsNumber, k: real)
  {
    match n
    case Finite(v) => v < k
    case PosInfinity => false
    case NegInfinity => true
    case NaN => false
  }

  function JsAbs(n: JsNumber): (r: JsNumber)
    ensures r != NegInfinity
  {
    match n
    case Finite(v) => Finite(Abs(v))
    case NegInfinity => PosInfinity
    case _ => n
  }

  /** What `n.toFixed(1)` shows: a decimal, "Infinity", "-Infinity" or "NaN". */
  datatype Shown = Decimal(f: Fixed1) | Infinity(negative: bool) | NotANumber

  function ShowFixed1(n: JsNumber): Shown
  {
    match n
    case Finite(v) => Decimal(ToFixed1(v))
    case PosInfinity => Infinity(false)
    case NegInfinity => Infinity(true)
    case NaN => NotANumber
  }
}
