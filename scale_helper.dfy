/**
 * `ScaleHelper`: conversion between floor-plan pixels and meters. The
 * pixels-per-meter setting, which the source reads from the preferences
 * singleton, is a parameter here.
 */
module Scale {
  import opened Wrappers
  import opened JavaNumbers

  /**
   * `pixelsToMeters`: `int / int` in Java, truncated toward zero and then
   * widened to `double`; a zero setting throws `ArithmeticException`.
   */
  function PixelsToMeters(pixels: int, pixelsPerMeter: int): (r: Result<real>)
    requires IsInt32(pixels) && IsInt32(pixelsPerMeter)
    ensures r.Err? <==> pixelsPerMeter == 0
    ensures r.Err? ==> r.error == Arithmetic
    ensures r.Ok? ==> r.value.Floor as real == r.value
  {
    if pixelsPerMeter == 0 then Err(Arithmetic)
    else Ok(ToInt32(TruncDiv(pixels, pixelsPerMeter)) as real)
  }

  /** A whole number of meters converts back exactly. */
  lemma PixelsToMetersOfMultiple(meters: int, pixelsPerMeter: int)
    requires pixelsPerMeter != 0
    requires IsInt32(meters) && IsInt32(pixelsPerMeter) && IsInt32(meters * pixelsPerMeter)
    ensures PixelsToMeters(meters * pixelsPerMeter, pixelsPerMeter) == Ok(meters as real)
  {
    TruncDivOfMultiple(meters, pixelsPerMeter);
  }

  /** Partial pixels are cut off toward zero on both sides of the origin. */
  lemma PixelsToMetersTruncates()
    ensures PixelsToMeters(150, 100) == Ok(1.0)
    ensures PixelsToMeters(-150, 100) == Ok(-1.0)
    ensures PixelsToMeters(7, 0) == Err(Arithmetic)
  {
    TruncDivRoundsTowardZero();
  }

  /** `Math.ceil`: the least integer not below `r`. */
  function Ceiling(r: real): (c: int)
    ensures c as real >= r && (c - 1) as real < r
  {
    -((-r).Floor)
  }

  /** A non-negative distance scaled by a non-negative factor stays non-negative. */
  lemma {:induction false} ScaledIsNonNegative(d: real, n: nat)
    requires d >= 0.0
    ensures d * n as real >= 0.0
  {
    if n > 0 {
      ScaledIsNonNegative(d, n - 1);
      assert d * n as real == d * (n - 1) as real + d;
    }
  }

  /** Multiplying integers and then widening equals widening and then multiplying. */
  lemma {:induction false} CastOfProduct(a: int, n: nat)
    ensures (a * n) as real == a as real * n as real
  {
    if n > 0 {
      CastOfProduct(a, n - 1);
      assert a * n == a * (n - 1) + a;
      assert a as real * n as real == a as real * (n - 1) as real + a as real;
    }
  }

  lemma CeilingIsMonotone(a: real, b: real)
    requires a <= b
    ensures Ceiling(a) <= Ceiling(b)
  {
  }

  /** Java's `(int)` cast of an integral `double`: saturates at the ends of the `int` range. */
  function SaturateToInt32(n: int): (r: int)
    ensures IsInt32(r)
    ensures IsInt32(n) ==> r == n
    ensures n > INT_MAX ==> r == INT_MAX
    ensures n < INT_MIN ==> r == INT_MIN
  {
    if n > INT_MAX then INT_MAX else if n < INT_MIN then INT_MIN else n
  }

  /** `metersToPixels`: `(int) Math.ceil(meters * pixelsPerMeter)`. */
  function MetersToPixels(meters: real, pixelsPerMeter: int): (r: int)
    ensures IsInt32(r)
  {
    SaturateToInt32(Ceiling(meters * pixelsPerMeter as real))
  }

  /**
   * Within the `int` range the result is the smallest whole number of pixels
   * that covers the distance.
   */
  lemma MetersToPixelsCovers(meters: real, pixelsPerMeter: int)
    requires IsInt32(Ceiling(meters * pixelsPerMeter as real))
    ensures MetersToPixels(meters, pixelsPerMeter) as real >= meters * pixelsPerMeter as real
    ensures (MetersToPixels(meters, pixelsPerMeter) - 1) as real < meters * pixelsPerMeter as real
  {
  }

  /** A longer distance never needs fewer pixels. */
  lemma {:induction false} MetersToPixelsIsMonotone(m1: real, m2: real, pixelsPerMeter: int)
    requires m1 <= m2 && pixelsPerMeter >= 0
    ensures MetersToPixels(m1, pixelsPerMeter) <= MetersToPixels(m2, pixelsPerMeter)
  {
    var k := pixelsPerMeter as real;
    var a, b := m1 * k, m2 * k;
    assert a <= b by {
      ScaledIsNonNegative(m2 - m1, pixelsPerMeter);
      assert m2 * k - m1 * k == (m2 - m1) * k;
    }
    CeilingIsMonotone(a, b);
    SaturateIsMonotone(Ceiling(a), Ceiling(b));
  }

  lemma SaturateIsMonotone(a: int, b: int)
    requires a <= b
    ensures SaturateToInt32(a) <= SaturateToInt32(b)
  {
  }

  lemma CeilingOfInteger(n: int)
    ensures Ceiling(n as real) == n
  {
  }

  /** No distance needs no pixels. */
  lemma MetersToPixelsOfZero(pixelsPerMeter: int)
    ensures MetersToPixels(0.0, pixelsPerMeter) == 0
  {
  }

  /** Converting whole pixels to meters and back returns the same pixels. */
  lemma MetersToPixelsInvertsWholeMeters(meters: int, pixelsPerMeter: int)
    requires pixelsPerMeter > 0
    requires IsInt32(meters) && IsInt32(pixelsPerMeter) && IsInt32(meters * pixelsPerMeter)
    ensures PixelsToMeters(meters * pixelsPerMeter, pixelsPerMeter).Ok?
    ensures MetersToPixels(PixelsToMeters(meters * pixelsPerMeter, pixelsPerMeter).value, pixelsPerMeter)
            == meters * pixelsPerMeter
  {
    var n := meters * pixelsPerMeter;
    PixelsToMetersOfMultiple(meters, pixelsPerMeter);
    CastOfProduct(meters, pixelsPerMeter);
    assert meters as real * pixelsPerMeter as real == n as real;
    CeilingOfInteger(n);
  }
}
