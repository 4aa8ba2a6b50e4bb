/** The four interpolation kernels of the resampler, over exact reals.
    Each maps control values and a phase `t` (normally in [0, 1)) to one
    output sample. */
module Algorithms {

  /** Nearest-neighbour hold: `start` below phase one half, `end` from it on. */
  function PiecewiseConstant(start: real, end: real, t: real): (r: real)
    ensures r == start || r == end
  {
    if t < 0.5 then start else end
  }

  /** Linear interpolation between `start` (t = 0) and `end` (t = 1). */
  function Lerp(start: real, end: real, t: real): (r: real)
    ensures r == start + t * (end - start)
  {
    (1.0 - t) * start + t * end
  }

  /** The smoothstep weight `t^2 (3 - 2t)` used by the tangentless Hermite kernel. */
  function Smoothstep(t: real): real
  {
    t * t * (3.0 - 2.0 * t)
  }

  /** Cubic Hermite blend of two points with both tangents zero. */
  function TangentlessHermite(start: real, end: real, t: real): (r: real)
    ensures r == start + Smoothstep(t) * (end - start)
  {
    var hermite := Smoothstep(t);
    (1.0 - hermite) * start + hermite * end
  }

  /** Cubic Hermite basis on the unit interval: positions `pos0`, `pos1`
      and tangents `m0`, `m1`. It is the tangentless blend of the two
      positions plus the contributions of the tangents. */
  function EvenHermite(pos0: real, pos1: real, m0: real, m1: real, t: real): (r: real)
    ensures r == TangentlessHermite(pos0, pos1, t) + (t * t * t - 2.0 * t * t + t) * m0 + (t * t * t - t * t) * m1
  {
    var t2 := t * t;
    var t3 := t2 * t;
    var h01 := -2.0 * t3 + 3.0 * t2;
    var h00 := -h01 + 1.0;
    var h11 := t3 - t2;
    var h10 := t3 - 2.0 * t2 + t;
    h00 * pos0 + h10 * m0 + h01 * pos1 + h11 * m1
  }

  /** The hold picks the endpoint nearer to the phase; a tie (t = 1/2) goes to `end`. */
  lemma PiecewiseConstantIsNearest(a: real, b: real, t: real)
    ensures PiecewiseConstant(a, b, t) == (if t < 1.0 - t then a else b)
    ensures PiecewiseConstant(a, b, 0.0) == a && PiecewiseConstant(a, b, 0.5) == b
  {
  }

  /** Linear interpolation hits both endpoints and is constant on a constant pair. */
  lemma LerpEndpoints(a: real, b: real, t: real)
    ensures Lerp(a, b, 0.0) == a
    ensures Lerp(a, b, 1.0) == b
    ensures Lerp(a, a, t) == a
  {
  }

  /** A product of non-negative factors is non-negative. */
  lemma ProductNonNegative(x: real, y: real)
    requires 0.0 <= x && 0.0 <= y
    ensures 0.0 <= x * y
  {
  }

  /** A product of positive factors is positive. */
  lemma ProductPositive(x: real, y: real)
    requires 0.0 < x && 0.0 < y
    ensures 0.0 < x * y
  {
  }

  /** A convex combination `(1 - w) a + w b` with `w` in [0, 1] lies between `a` and `b`. */
  lemma ConvexBetween(a: real, b: real, w: real)
    requires 0.0 <= w <= 1.0
    ensures (if a <= b then a else b) <= (1.0 - w) * a + w * b <= (if a <= b then b else a)
  {
    var v := (1.0 - w) * a + w * b;
    // v - a == w (b - a) and b - v == (1 - w) (b - a)
    assert v - a == w * (b - a);
    assert b - v == (1.0 - w) * (b - a);
    if a <= b {
      ProductNonNegative(w, b - a);
      ProductNonNegative(1.0 - w, b - a);
    } else {
      ProductNonNegative(w, a - b);
      ProductNonNegative(1.0 - w, a - b);
      assert a - v == w * (a - b);
      assert v - b == (1.0 - w) * (a - b);
    }
  }

  /** Linear interpolation moves monotonically from `start` towards `end`:
      a later phase gives a larger value when `start < end`, a smaller one
      when `start > end`, and the same one when they are equal. */
  lemma LerpMonotone(a: real, b: real, s: real, t: real)
    requires s < t
    ensures a < b ==> Lerp(a, b, s) < Lerp(a, b, t)
    ensures a == b ==> Lerp(a, b, s) == Lerp(a, b, t)
    ensures a > b ==> Lerp(a, b, s) > Lerp(a, b, t)
  {
    assert Lerp(a, b, t) - Lerp(a, b, s) == (t - s) * (b - a);
    if a < b {
      ProductPositive(t - s, b - a);
    } else if a > b {
      ProductPositive(t - s, a - b);
      assert Lerp(a, b, s) - Lerp(a, b, t) == (t - s) * (a - b);
    }
  }

  /** For a phase in [0, 1], linear interpolation stays between its endpoints. */
  lemma LerpBetween(a: real, b: real, t: real)
    requires 0.0 <= t <= 1.0
    ensures (if a <= b then a else b) <= Lerp(a, b, t) <= (if a <= b then b else a)
  {
    ConvexBetween(a, b, t);
  }

  /** The smoothstep weight maps [0, 1] into [0, 1]. */
  lemma SmoothstepBounds(t: real)
    requires 0.0 <= t <= 1.0
    ensures 0.0 <= Smoothstep(t) <= 1.0
  {
    ProductNonNegative(t * t, 3.0 - 2.0 * t);
    // 1 - t^2 (3 - 2t) == (1 - t)^2 (1 + 2t)
    assert 1.0 - Smoothstep(t) == (1.0 - t) * (1.0 - t) * (1.0 + 2.0 * t);
    ProductNonNegative((1.0 - t) * (1.0 - t), 1.0 + 2.0 * t);
  }

  /** The difference of two smoothstep weights factors through the
      difference of their phases. */
  lemma SmoothstepDifference(s: real, t: real)
    ensures Smoothstep(t) - Smoothstep(s) == (t - s) * (3.0 * (t + s) - 2.0 * (t * t + t * s + s * s))
  {
  }

  /** The second factor of `SmoothstepDifference` is positive on [0, 1]:
      it is at least `t (1 - s) + s (1 - t)`, because `t^2 <= t` and `s^2 <= s`. */
  lemma SmoothstepSlopePositive(s: real, t: real)
    requires 0.0 <= s < t <= 1.0
    ensures 0.0 < 3.0 * (t + s) - 2.0 * (t * t + t * s + s * s)
  {
    var g := 3.0 * (t + s) - 2.0 * (t * t + t * s + s * s);
    assert g == (t * (1.0 - s) + s * (1.0 - t)) + 2.0 * (t * (1.0 - t)) + 2.0 * (s * (1.0 - s));
    ProductNonNegative(t, 1.0 - t);
    ProductNonNegative(s, 1.0 - s);
    ProductPositive(t, 1.0 - s);
    ProductNonNegative(s, 1.0 - t);
  }

  /** The smoothstep weight is strictly increasing on [0, 1]. */
  lemma SmoothstepMonotone(s: real, t: real)
    requires 0.0 <= s < t <= 1.0
    ensures Smoothstep(s) < Smoothstep(t)
  {
    SmoothstepDifference(s, t);
    SmoothstepSlopePositive(s, t);
    ProductPositive(t - s, 3.0 * (t + s) - 2.0 * (t * t + t * s + s * s));
  }

  /** The smoothstep weight is point-symmetric about the middle of the interval. */
  lemma SmoothstepReflection(t: real)
    ensures Smoothstep(1.0 - t) == 1.0 - Smoothstep(t)
  {
    assert Smoothstep(1.0 - t) == (1.0 - t) * (1.0 - t) * (1.0 + 2.0 * t);
    assert 1.0 - Smoothstep(t) == (1.0 - t) * (1.0 - t) * (1.0 + 2.0 * t);
  }

  /** The tangentless Hermite kernel is linear interpolation at the smoothstep phase. */
  lemma TangentlessHermiteIsEasedLerp(a: real, b: real, t: real)
    ensures TangentlessHermite(a, b, t) == Lerp(a, b, Smoothstep(t))
  {
  }

  /** The tangentless Hermite kernel hits both endpoints and is constant on a constant pair. */
  lemma TangentlessHermiteEndpoints(a: real, b: real, t: real)
    ensures TangentlessHermite(a, b, 0.0) == a
    ensures TangentlessHermite(a, b, 1.0) == b
    ensures TangentlessHermite(a, a, t) == a
  {
    assert Smoothstep(0.0) == 0.0;
    assert Smoothstep(1.0) == 1.0;
  }

  /** Swapping the endpoints and reflecting the phase gives the same value,
      and values at reflected phases are symmetric about the midpoint of the
      endpoints. */
  lemma TangentlessHermiteSymmetric(a: real, b: real, t: real)
    ensures TangentlessHermite(a, b, t) == TangentlessHermite(b, a, 1.0 - t)
    ensures TangentlessHermite(a, b, t) + TangentlessHermite(a, b, 1.0 - t) == a + b
  {
    SmoothstepReflection(t);
    var h := Smoothstep(t);
    assert TangentlessHermite(a, b, t) == a + h * (b - a);
    assert TangentlessHermite(b, a, 1.0 - t) == b + (1.0 - h) * (a - b);
    assert TangentlessHermite(a, b, 1.0 - t) == a + (1.0 - h) * (b - a);
  }

  /** For a phase in [0, 1], the tangentless Hermite kernel stays between its endpoints. */
  lemma TangentlessHermiteBetween(a: real, b: real, t: real)
    requires 0.0 <= t <= 1.0
    ensures (if a <= b then a else b) <= TangentlessHermite(a, b, t) <= (if a <= b then b else a)
  {
    SmoothstepBounds(t);
    ConvexBetween(a, b, Smoothstep(t));
  }

  /** For phases in [0, 1] the tangentless Hermite kernel moves strictly
      monotonically from `start` towards `end` (and is constant when they
      are equal). */
  lemma TangentlessHermiteMonotone(a: real, b: real, s: real, t: real)
    requires 0.0 <= s < t <= 1.0
    ensures a < b ==> TangentlessHermite(a, b, s) < TangentlessHermite(a, b, t)
    ensures a == b ==> TangentlessHermite(a, b, s) == TangentlessHermite(a, b, t)
    ensures a > b ==> TangentlessHermite(a, b, s) > TangentlessHermite(a, b, t)
  {
    SmoothstepMonotone(s, t);
    TangentlessHermiteIsEasedLerp(a, b, s);
    TangentlessHermiteIsEasedLerp(a, b, t);
    LerpMonotone(a, b, Smoothstep(s), Smoothstep(t));
  }

  /** The Hermite basis interpolates its two positions. */
  lemma EvenHermiteEndpoints(p0: real, p1: real, m0: real, m1: real)
    ensures EvenHermite(p0, p1, m0, m1, 0.0) == p0
    ensures EvenHermite(p0, p1, m0, m1, 1.0) == p1
  {
  }

  /** With both tangents zero the Hermite basis is the tangentless Hermite kernel. */
  lemma EvenHermiteZeroTangents(p0: real, p1: real, t: real)
    ensures EvenHermite(p0, p1, 0.0, 0.0, t) == TangentlessHermite(p0, p1, t)
  {
    assert -2.0 * (t * t * t) + 3.0 * (t * t) == Smoothstep(t);
  }
}
