/** The pure numeric helpers of the animation module: linear interpolation and
    the two easing curves of the `ease` table. JavaScript numbers are modelled
    as exact reals, so every identity below holds exactly (no rounding). */
module Easing {

  /** `lerp(start, end, amt)`: moves the fraction `amt` of the way from
      `start` to `end`. */
  function Lerp(start: real, end: real, amt: real): (r: real)
    ensures r == start + amt * (end - start)
    ensures amt == 0.0 ==> r == start
    ensures amt == 1.0 ==> r == end
  {
    (1.0 - amt) * start + amt * end
  }

  /** Halfway between the two ends is their average. */
  lemma LerpMidpoint(a: real, b: real)
    ensures Lerp(a, b, 0.5) == (a + b) / 2.0
  {
  }

  /** Interpolating between equal ends gives that value, whatever the amount. */
  lemma LerpConstant(a: real, amt: real)
    ensures Lerp(a, a, amt) == a
  {
  }

  /** Lerp is a mirror image: swapping the ends is the same as taking `1 - amt`. */
  lemma LerpSwap(a: real, b: real, amt: real)
    ensures Lerp(b, a, amt) == Lerp(a, b, 1.0 - amt)
  {
  }

  /** The denominator `2(n^2 - n) + 1` of `inOutParametric`; it never vanishes,
      so the curve is defined on every real. */
  function ParametricDenominator(n: real): (d: real)
    ensures d >= 0.5
  {
    var sq := n * n;
    assert 2.0 * (sq - n) + 1.0 == 2.0 * (n - 0.5) * (n - 0.5) + 0.5;
    2.0 * (sq - n) + 1.0
  }

  /** `ease.inOutParametric(n) = n^2 / (2(n^2 - n) + 1)`. Its value lies in
      [0, 1] for every input, and the ends of the unit interval are fixed. */
  function InOutParametric(n: real): (r: real)
    ensures 0.0 <= r <= 1.0
    ensures n == 0.0 ==> r == 0.0
    ensures n == 1.0 ==> r == 1.0
  {
    var sq := n * n;
    var d := ParametricDenominator(n);
    // n^2 <= d because d - n^2 == (n - 1)^2
    assert d - sq == (n - 1.0) * (n - 1.0);
    SquareNonNegative(n);
    SquareNonNegative(n - 1.0);
    DivisionBounds(sq, d);
    sq / d
  }

  /** 0 <= x <= d with d > 0 gives 0 <= x/d <= 1. */
  lemma DivisionBounds(x: real, d: real)
    requires d > 0.0 && 0.0 <= x <= d
    ensures 0.0 <= x / d <= 1.0
  {
    assert x / d * d == x;
  }

  /** The denominator is the same at `n` and at `1 - n`. */
  lemma ParametricDenominatorSymmetric(n: real)
    ensures ParametricDenominator(1.0 - n) == ParametricDenominator(n)
  {
    assert (1.0 - n) * (1.0 - n) - (1.0 - n) == n * n - n;
  }

  /** inOutParametric is symmetric about (0.5, 0.5). */
  lemma InOutParametricSymmetric(n: real)
    ensures InOutParametric(1.0 - n) == 1.0 - InOutParametric(n)
  {
    var d := ParametricDenominator(n);
    ParametricDenominatorSymmetric(n);
    assert (1.0 - n) * (1.0 - n) == d - n * n;
    assert (d - n * n) / d == 1.0 - n * n / d;
  }

  /** inOutParametric passes through the midpoint. */
  lemma InOutParametricMidpoint()
    ensures InOutParametric(0.5) == 0.5
  {
    assert ParametricDenominator(0.5) == 0.5;
  }

  /** `ease.inOutQuad(n)`: `2n^2` up to one half, then the mirrored parabola. */
  function InOutQuad(n: real): (r: real)
    ensures n <= 0.5 ==> r == 2.0 * n * n
    ensures n > 0.5 ==> r == 1.0 - 2.0 * (1.0 - n) * (1.0 - n)
  {
    if n <= 0.5 then
      2.0 * n * n
    else
      assert 2.0 * (n - 0.5) * (1.0 - (n - 0.5)) + 0.5 == 1.0 - 2.0 * (1.0 - n) * (1.0 - n);
      2.0 * (n - 0.5) * (1.0 - (n - 0.5)) + 0.5
  }

  /** The fixed values of inOutQuad at 0, one half and 1. */
  lemma InOutQuadValues()
    ensures InOutQuad(0.0) == 0.0
    ensures InOutQuad(0.5) == 0.5
    ensures InOutQuad(1.0) == 1.0
  {
  }

  /** inOutQuad is continuous at the switch point n = 0.5: on [0, 1] its
      distance from 0.5 is at most twice the distance of `n` from 0.5, on
      either side, and it lies on the same side of 0.5 as `n`. */
  lemma InOutQuadContinuousAtHalf(n: real)
    requires 0.0 <= n <= 1.0
    ensures n <= 0.5 ==> 0.0 <= 0.5 - InOutQuad(n) <= 2.0 * (0.5 - n)
    ensures n >= 0.5 ==> 0.0 <= InOutQuad(n) - 0.5 <= 2.0 * (n - 0.5)
  {
    if n <= 0.5 {
      // 0.5 - 2n^2 == 2(0.5 - n)(0.5 + n), and 0.5 + n <= 1
      assert 0.5 - 2.0 * n * n == 2.0 * (0.5 - n) * (0.5 + n);
      SquareMonotone(n, 0.5);
      assert (0.5 - n) * (0.5 + n) <= (0.5 - n) * 1.0;
    } else {
      // inOutQuad(n) - 0.5 == 2(n - 0.5)(1.5 - n), and 1.5 - n lies in [0.5, 1]
      assert InOutQuad(n) - 0.5 == 2.0 * (n - 0.5) * (1.5 - n);
      assert (n - 0.5) * (1.5 - n) <= (n - 0.5) * 1.0;
      ProductNonNegative(n - 0.5, 1.5 - n);
    }
  }

  /** inOutQuad is symmetric about (0.5, 0.5), for every real input. */
  lemma InOutQuadSymmetric(n: real)
    ensures InOutQuad(1.0 - n) == 1.0 - InOutQuad(n)
  {
    if n < 0.5 {
      assert InOutQuad(1.0 - n) == 1.0 - 2.0 * n * n;
    } else if n > 0.5 {
      assert InOutQuad(1.0 - n) == 2.0 * (1.0 - n) * (1.0 - n);
    }
  }

  /** On the unit interval inOutQuad stays in the unit interval and never
      decreases. */
  lemma InOutQuadMonotone(x: real, y: real)
    requires 0.0 <= x <= y <= 1.0
    ensures 0.0 <= InOutQuad(x) <= InOutQuad(y) <= 1.0
  {
    SquareNonNegative(x);
    SquareNonNegative(1.0 - y);
    if y <= 0.5 {
      SquareMonotone(x, y);
      SquareMonotone(y, 0.5);
    } else if 0.5 < x {
      SquareMonotone(1.0 - y, 1.0 - x);
      SquareMonotone(1.0 - x, 0.5);
    } else {
      SquareMonotone(x, 0.5);
      SquareMonotone(1.0 - y, 0.5);
    }
  }

  /** A product of non-negative reals is non-negative. */
  lemma ProductNonNegative(x: real, y: real)
    requires x >= 0.0 && y >= 0.0
    ensures x * y >= 0.0
  {
  }

  /** A square is never negative. */
  lemma SquareNonNegative(x: real)
    ensures x * x >= 0.0
  {
    if x < 0.0 {
      assert x * x == (-x) * (-x);
    }
  }

  /** Squaring does not decrease on the non-negative reals. */
  lemma SquareMonotone(x: real, y: real)
    requires 0.0 <= x <= y
    ensures x * x <= y * y
  {
    assert y * y - x * x == (y - x) * (y + x);
  }
}
