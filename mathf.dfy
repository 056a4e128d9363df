/** The two `Mathf` clamping helpers the scripts use. */
module Mathf {

  /** `Mathf.Clamp(value, min, max)` on integers: `min` wins when the bounds
      are crossed. */
  function Clamp(value: int, min: int, max: int): (r: int)
    ensures min <= max ==> min <= r <= max
    ensures min <= value <= max ==> r == value
    ensures value < min ==> r == min
    ensures min <= value && max < value ==> r == max
  {
    if value < min then min else if value > max then max else value
  }

  /** `Mathf.Clamp01(value)`. */
  function Clamp01(value: real): (r: real)
    ensures 0.0 <= r <= 1.0
    ensures 0.0 <= value <= 1.0 ==> r == value
    ensures value < 0.0 ==> r == 0.0
    ensures value > 1.0 ==> r == 1.0
  {
    if value < 0.0 then 0.0 else if value > 1.0 then 1.0 else value
  }

  /** A single-precision value as far as division and `Clamp01` tell it
      apart: a number, an infinity of either sign, or NaN.  Rounding is not
      modelled. */
  datatype Single = Number(value: real) | PositiveInfinity | NegativeInfinity | NaN

  /** IEEE division of numbers; a zero divisor is positive zero, the value
      an inspector field holds. */
  function Divide(x: real, y: real): (q: Single)
    ensures y != 0.0 ==> q.Number? && q.value * y == x
    ensures y == 0.0 ==> (q.NaN? <==> x == 0.0)
    ensures y == 0.0 ==> (q == PositiveInfinity <==> x > 0.0) && (q == NegativeInfinity <==> x < 0.0)
  {
    if y != 0.0 then Number(x / y)
    else if x > 0.0 then PositiveInfinity
    else if x < 0.0 then NegativeInfinity
    else NaN
  }

  /** `Mathf.Clamp01` on a single: both comparisons fail for NaN, which is
      returned unchanged. */
  function Clamp01Single(value: Single): (r: Single)
    ensures r.NaN? <==> value.NaN?
    ensures r.Number? ==> 0.0 <= r.value <= 1.0
    ensures value.Number? ==> r == Number(Clamp01(value.value))
    ensures value == PositiveInfinity ==> r == Number(1.0)
    ensures value == NegativeInfinity ==> r == Number(0.0)
  {
    match value
    case Number(v) => Number(Clamp01(v))
    case PositiveInfinity => Number(1.0)
    case NegativeInfinity => Number(0.0)
    case NaN => NaN
  }

  /** The fraction `Clamp01(elapsed / delay)`: the real quotient, clamped,
      for a non-zero delay; for a zero delay 1 once time has passed, and NaN
      in the frame the timer starts. */
  lemma ClampedQuotient(elapsed: real, delay: real)
    ensures delay != 0.0 ==> Clamp01Single(Divide(elapsed, delay)) == Number(Clamp01(elapsed / delay))
    ensures delay == 0.0 && elapsed > 0.0 ==> Clamp01Single(Divide(elapsed, delay)) == Number(1.0)
    ensures delay == 0.0 && elapsed == 0.0 ==> Clamp01Single(Divide(elapsed, delay)) == NaN
    ensures delay < 0.0 && elapsed >= 0.0 ==> Clamp01Single(Divide(elapsed, delay)) == Number(0.0)
  {
    if delay < 0.0 && elapsed >= 0.0 {
      assert elapsed / delay <= 0.0;
    }
  }
}
