/**
 * The normalisation between a raw axis value in `[min, max]` and the bipolar
 * range `[-1, 1]`, computed over exact reals instead of `float`.
 */
module Normalization {
  import opened CArith

  /** `std::clamp(x, -1.0f, 1.0f)`. */
  function Clamp(x: real): (r: real)
    ensures -1.0 <= r <= 1.0
    ensures -1.0 <= x <= 1.0 ==> r == x
    ensures x < -1.0 ==> r == -1.0
    ensures x > 1.0 ==> r == 1.0
  {
    if x < -1.0 then -1.0 else if 1.0 < x then 1.0 else x
  }

  /**
   * `(max + min + 1) / 2` with C++ division: the raw value that maps to 0.  It lies
   * above `min` and at most at `max` for a non-empty range (for `min == max` it
   * can lie outside it).
   */
  function Center(min: int, max: int): (c: int)
    ensures min < max ==> min < c <= max
  {
    TruncDiv(max + min + 1, 2)
  }

  /**
   * `to_float_no_range_check`: below the centre scaled by `center - min`, above it
   * by `max - center`. Where that divisor is 0 the `float` result is infinite or
   * NaN; the model yields 0 there.  A value inside a non-empty range already lands
   * in `[-1, 1]`.
   */
  function ToFloatNoRangeCheck(value: int, min: int, max: int): (r: real)
    ensures min < max && min <= value <= max ==> -1.0 <= r <= 1.0
  {
    var center := Center(min, max);
    var divisor := if value < center then center - min else max - center;
    if divisor == 0 then 0.0
    else if !(min < max && min <= value <= max) then (value - center) as real / divisor as real
    else if value < center then
      RatioBetween(value - center, divisor, -1.0, 0.0);
      (value - center) as real / divisor as real
    else
      RatioBetween(value - center, divisor, 0.0, 1.0);
      (value - center) as real / divisor as real
  }

  /** A ratio `n / d` with `lo * d <= n <= hi * d` for a positive `d` lies in `[lo, hi]`. */
  lemma RatioBetween(n: int, d: int, lo: real, hi: real)
    requires d > 0 && lo * d as real <= n as real <= hi * d as real
    ensures lo <= n as real / d as real <= hi
  {
    var x := n as real / d as real;
    assert x * d as real == n as real;
  }

  /** `to_float`: the unclamped value clamped to `[-1, 1]`. */
  function ToFloat(value: int, min: int, max: int): (r: real)
    ensures -1.0 <= r <= 1.0
    ensures r == Clamp(ToFloatNoRangeCheck(value, min, max))
  {
    Clamp(ToFloatNoRangeCheck(value, min, max))
  }

  /**
   * `from_float`: back to the raw range, truncated toward zero by the implicit
   * conversion; a normalised value in `[-1, 1]` lands in `[min, max]`.
   */
  function FromFloat(x: real, min: int, max: int): (r: int)
    ensures -1.0 <= x <= 1.0 && min <= max ==> min <= r <= max
  {
    var w := (x + 1.0) / 2.0;
    var span := (max - min) as real;
    if -1.0 <= x <= 1.0 && min <= max then
      ScaleBetween(w, min, max);
      Trunc(w * span + min as real)
    else Trunc(w * span + min as real)
  }

  /** A weight in `[0, 1]` scales the raw range to a value between its ends. */
  lemma ScaleBetween(w: real, min: int, max: int)
    requires 0.0 <= w <= 1.0 && min <= max
    ensures min <= Trunc(w * (max - min) as real + min as real) <= max
  {
    var span := (max - min) as real;
    assert 0.0 <= w * span <= span by {
      assert w * span <= 1.0 * span;
    }
    TruncBetween(w * span + min as real, min, max);
  }

  /** The centre maps to 0. */
  lemma CenterIsZero(min: int, max: int)
    ensures ToFloat(Center(min, max), min, max) == 0.0
  {
  }

  /** The ends of the normalised range map to the ends of the raw range. */
  lemma FromFloatEnds(min: int, max: int)
    ensures FromFloat(-1.0, min, max) == min
    ensures FromFloat(1.0, min, max) == max
  {
  }
}
