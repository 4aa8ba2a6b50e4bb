/** What each resampling pass produces, as functions of the input samples
    and the ratio. The cursor of step `i` is `f = i * ratio` (the source
    adds `ratio` to `f` once per step); its cell `floor(f)` selects the
    left control sample and its phase `f - floor(f)` is given to the kernel. */
module Passes {
  import opened Algorithms
  import Dispatch

  // ---------------------------------------------------------------------------
  // Input buffer edits used around the Catmull-Rom pass

  /** `repeat_last(n)`: `n` copies of the last sample appended; an empty
      buffer stays empty. */
  function RepeatedLast(s: seq<real>, n: nat): (r: seq<real>)
    ensures s == [] ==> r == []
    ensures s != [] ==> |r| == |s| + n && r[..|s|] == s
    ensures s != [] ==> forall j :: |s| <= j < |r| ==> r[j] == s[|s| - 1]
  {
    if s == [] then [] else s + seq(n, _ => s[|s| - 1])
  }

  /** `remove_last(n)`: `n` pops, each of which does nothing on an empty buffer. */
  function WithoutLast(s: seq<real>, n: nat): (r: seq<real>)
    ensures |r| == if n <= |s| then |s| - n else 0
    ensures r == s[..|r|]
  {
    if n <= |s| then s[..|s| - n] else []
  }

  /** Removing what was just repeated restores the buffer, empty or not. */
  lemma RemoveUndoesRepeat(s: seq<real>, n: nat)
    ensures WithoutLast(RepeatedLast(s, n), n) == s
  {
    if s != [] {
      assert RepeatedLast(s, n)[..|s|] == s;
    }
  }

  /** Removing `a` then `b` samples is removing `a + b`. */
  lemma WithoutLastTwice(s: seq<real>, a: nat, b: nat)
    ensures WithoutLast(WithoutLast(s, a), b) == WithoutLast(s, a + b)
  {
  }

  // ---------------------------------------------------------------------------
  // The cursor

  /** The cursor `f` at step `i`. */
  function Position(i: nat, ratio: real): real
  {
    i as real * ratio
  }

  /** Adding `ratio` to the cursor moves it to the next step. */
  lemma PositionNext(i: nat, ratio: real)
    ensures Position(i + 1, ratio) == Position(i, ratio) + ratio
  {
    assert (i + 1) as real * ratio == i as real * ratio + 1.0 * ratio;
  }

  /** Loop guard of the two-point passes: `f < bound`. */
  predicate Below(i: nat, ratio: real, bound: real)
  {
    Position(i, ratio) < bound
  }

  /** Loop guard of the Catmull-Rom pass: `f <= bound`. */
  predicate AtMost(i: nat, ratio: real, bound: real)
  {
    Position(i, ratio) <= bound
  }

  /** The cell `floor(f)` of step `i`. */
  function Cell(i: nat, ratio: real): int
  {
    Position(i, ratio).Floor
  }

  /** The phase `f - floor(f)` of step `i` (`f32::fract` for a non-negative `f`). */
  function Phase(i: nat, ratio: real): real
  {
    Position(i, ratio) - Cell(i, ratio) as real
  }

  /** Multiplying both sides by a positive factor keeps a weak order. */
  lemma ScaleLe(a: real, b: real, r: real)
    requires a <= b && r > 0.0
    ensures a * r <= b * r
  {
    ProductNonNegative(b - a, r);
    assert b * r - a * r == (b - a) * r;
  }

  /** Multiplying both sides by a positive factor keeps a strict order. */
  lemma ScaleLt(a: real, b: real, r: real)
    requires a < b && r > 0.0
    ensures a * r < b * r
  {
    ScaleLe(a, b, r);
    assert b * r - a * r == (b - a) * r;
    assert (b - a) * r != 0.0;
  }

  /** The cursor never decreases and never goes below zero. */
  lemma PositionMonotone(i: nat, j: nat, ratio: real)
    requires i <= j && ratio > 0.0
    ensures 0.0 <= Position(i, ratio) <= Position(j, ratio)
  {
    ScaleLe(0.0, i as real, ratio);
    ScaleLe(i as real, j as real, ratio);
  }

  /** The phase handed to a kernel is in [0, 1). */
  lemma PhaseInUnit(i: nat, ratio: real)
    requires ratio > 0.0
    ensures 0.0 <= Phase(i, ratio) < 1.0
    ensures 0 <= Cell(i, ratio)
  {
    PositionMonotone(0, i, ratio);
  }

  /** Smallest integer not below a positive real. */
  function Ceil(x: real): (c: nat)
    requires x > 0.0
    ensures x <= c as real < x + 1.0
  {
    var f := x.Floor;
    if f as real == x then f else f + 1
  }

  /** Dividing by the ratio and multiplying back gives the bound. */
  lemma DivThenScale(bound: real, ratio: real)
    requires ratio > 0.0
    ensures (bound / ratio) * ratio == bound
  {
  }

  /** Comparing step `c` with the bound is comparing `c` with `bound / ratio`. */
  lemma CompareQuotient(c: nat, x: real, ratio: real, bound: real)
    requires ratio > 0.0 && x * ratio == bound
    ensures c as real < x ==> Below(c, ratio, bound)
    ensures c as real <= x ==> AtMost(c, ratio, bound)
    ensures x < c as real ==> !AtMost(c, ratio, bound)
    ensures x <= c as real ==> !Below(c, ratio, bound)
  {
    if c as real < x {
      ScaleLt(c as real, x, ratio);
    }
    if c as real <= x {
      ScaleLe(c as real, x, ratio);
    }
    if x < c as real {
      ScaleLt(x, c as real, ratio);
    }
    if x <= c as real {
      ScaleLe(x, c as real, ratio);
    }
  }

  /** The first step of cursor `ceil(bound / ratio)` is the first one not below `bound`. */
  lemma CeilSteps(bound: real, ratio: real)
    requires bound > 0.0 && ratio > 0.0
    ensures Ceil(bound / ratio) >= 1
    ensures !Below(Ceil(bound / ratio), ratio, bound)
    ensures Below(Ceil(bound / ratio) - 1, ratio, bound)
  {
    DivThenScale(bound, ratio);
    var x := bound / ratio;
    var c := Ceil(x);
    CompareQuotient(c, x, ratio, bound);
    CompareQuotient(c - 1, x, ratio, bound);
  }

  /** The first step past `floor(bound / ratio)` is the first one beyond `bound`. */
  lemma FloorSteps(bound: real, ratio: real)
    requires bound >= 0.0 && ratio > 0.0
    ensures (bound / ratio).Floor >= 0
    ensures !AtMost((bound / ratio).Floor + 1, ratio, bound)
    ensures AtMost((bound / ratio).Floor, ratio, bound)
  {
    DivThenScale(bound, ratio);
    var x := bound / ratio;
    var f := x.Floor;
    CompareQuotient(f + 1, x, ratio, bound);
    CompareQuotient(f, x, ratio, bound);
  }

  /** Number of steps of a loop `while f < bound`: the first step whose
      cursor is not below the bound, every earlier one being below it. */
  function StepsBelow(bound: real, ratio: real): (c: nat)
    requires ratio > 0.0
    ensures !Below(c, ratio, bound)
    ensures c == 0 || Below(c - 1, ratio, bound)
  {
    if bound <= 0.0 then
      PositionMonotone(0, 0, ratio);
      0
    else
      CeilSteps(bound, ratio);
      Ceil(bound / ratio)
  }

  /** Number of steps of a loop `while f <= bound`. */
  function StepsUpTo(bound: real, ratio: real): (c: nat)
    requires ratio > 0.0
    ensures !AtMost(c, ratio, bound)
    ensures c == 0 || AtMost(c - 1, ratio, bound)
  {
    if bound < 0.0 then
      PositionMonotone(0, 0, ratio);
      0
    else
      FloorSteps(bound, ratio);
      (bound / ratio).Floor + 1
  }

  /** Step `i` runs under `while f < bound` exactly when `i < StepsBelow(bound, ratio)`. */
  lemma StepsBelowAt(bound: real, ratio: real, i: nat)
    requires ratio > 0.0
    ensures i < StepsBelow(bound, ratio) <==> Below(i, ratio, bound)
  {
    var c := StepsBelow(bound, ratio);
    if i < c {
      PositionMonotone(i, c - 1, ratio);
    } else {
      PositionMonotone(c, i, ratio);
    }
  }

  /** Step `i` runs under `while f <= bound` exactly when `i < StepsUpTo(bound, ratio)`. */
  lemma StepsUpToAt(bound: real, ratio: real, i: nat)
    requires ratio > 0.0
    ensures i < StepsUpTo(bound, ratio) <==> AtMost(i, ratio, bound)
  {
    var c := StepsUpTo(bound, ratio);
    if i < c {
      PositionMonotone(i, c - 1, ratio);
    } else {
      PositionMonotone(c, i, ratio);
    }
  }

  /** `StepsBelow` counts exactly the steps whose cursor is below the bound. */
  lemma StepsBelowCounts(bound: real, ratio: real)
    requires ratio > 0.0
    ensures forall i: nat :: i < StepsBelow(bound, ratio) <==> Below(i, ratio, bound)
  {
    forall i: nat
      ensures i < StepsBelow(bound, ratio) <==> Below(i, ratio, bound)
    {
      StepsBelowAt(bound, ratio, i);
    }
  }

  /** `StepsUpTo` counts exactly the steps whose cursor is at most the bound. */
  lemma StepsUpToCounts(bound: real, ratio: real)
    requires ratio > 0.0
    ensures forall i: nat :: i < StepsUpTo(bound, ratio) <==> AtMost(i, ratio, bound)
  {
    forall i: nat
      ensures i < StepsUpTo(bound, ratio) <==> AtMost(i, ratio, bound)
    {
      StepsUpToAt(bound, ratio, i);
    }
  }

  // ---------------------------------------------------------------------------
  // The two-point passes (piecewise constant, lerp, tangentless Hermite)

  /** Every step of a two-point pass over `n` samples reads cells `k` and
      `k + 1` with `0 <= k` and `k + 1 <= n - 1`. */
  lemma TwoPointIndexInBounds(n: nat, ratio: real, i: nat)
    requires n >= 1 && ratio > 0.0
    requires i < StepsBelow((n - 1) as real, ratio)
    ensures 0 <= Cell(i, ratio) && Cell(i, ratio) + 1 <= n - 1
  {
    StepsBelowAt((n - 1) as real, ratio, i);
    PhaseInUnit(i, ratio);
  }

  /** The output of a two-point pass with the given kernel: one sample per
      step while the cursor is below `|s| - 1`. */
  function TwoPointPass(s: seq<real>, ratio: real, kernel: (real, real, real) -> real): seq<real>
    requires |s| >= 1 && ratio > 0.0
  {
    var count := StepsBelow((|s| - 1) as real, ratio);
    seq(count, i requires 0 <= i < count =>
      TwoPointIndexInBounds(|s|, ratio, i);
      kernel(s[Cell(i, ratio)], s[Cell(i, ratio) + 1], Phase(i, ratio)))
  }

  /** A two-point pass yields one sample for each step `i >= 0` with
      `i * ratio < |s| - 1`, and sample `i` is the kernel applied at step `i`. */
  lemma TwoPointPassShape(s: seq<real>, ratio: real, kernel: (real, real, real) -> real, i: nat)
    requires |s| >= 1 && ratio > 0.0
    ensures i < |TwoPointPass(s, ratio, kernel)| <==> Position(i, ratio) < (|s| - 1) as real
    ensures i < |TwoPointPass(s, ratio, kernel)| ==>
      0 <= Cell(i, ratio) && Cell(i, ratio) + 1 < |s| &&
      TwoPointPass(s, ratio, kernel)[i] == kernel(s[Cell(i, ratio)], s[Cell(i, ratio) + 1], Phase(i, ratio))
  {
    StepsBelowAt((|s| - 1) as real, ratio, i);
    if i < |TwoPointPass(s, ratio, kernel)| {
      TwoPointIndexInBounds(|s|, ratio, i);
      var r := TwoPointPass(s, ratio, kernel);
      assert r[i] == kernel(s[Cell(i, ratio)], s[Cell(i, ratio) + 1], Phase(i, ratio));
    }
  }

  /** A single input sample gives no output: the guard `0 < 0` fails at once. */
  lemma TwoPointPassSingle(x: real, ratio: real, kernel: (real, real, real) -> real)
    requires ratio > 0.0
    ensures TwoPointPass([x], ratio, kernel) == []
  {
  }

  /** Linear and tangentless Hermite samples lie between the two input
      samples they interpolate. */
  lemma TwoPointPassBetween(s: seq<real>, ratio: real, i: nat)
    requires |s| >= 1 && ratio > 0.0
    requires i < |TwoPointPass(s, ratio, Lerp)|
    ensures 0 <= Cell(i, ratio) && Cell(i, ratio) + 1 < |s|
    ensures var a, b := s[Cell(i, ratio)], s[Cell(i, ratio) + 1];
      (if a <= b then a else b) <= TwoPointPass(s, ratio, Lerp)[i] <= (if a <= b then b else a) &&
      (if a <= b then a else b) <= TwoPointPass(s, ratio, TangentlessHermite)[i] <= (if a <= b then b else a)
  {
    TwoPointPassShape(s, ratio, Lerp, i);
    TwoPointPassShape(s, ratio, TangentlessHermite, i);
    PhaseInUnit(i, ratio);
    var a, b, t := s[Cell(i, ratio)], s[Cell(i, ratio) + 1], Phase(i, ratio);
    LerpBetween(a, b, t);
    TangentlessHermiteBetween(a, b, t);
  }

  /** With ratio 1 every cursor is a whole index, so linear interpolation
      reproduces the input without its last sample. */
  lemma LerpUnitRatio(s: seq<real>)
    requires |s| >= 1
    ensures TwoPointPass(s, 1.0, Lerp) == s[..|s| - 1]
  {
    var r := TwoPointPass(s, 1.0, Lerp);
    StepsBelowAt((|s| - 1) as real, 1.0, |s| - 1);
    if |s| > 1 {
      StepsBelowAt((|s| - 1) as real, 1.0, |s| - 2);
    }
    assert |r| == |s| - 1;
    forall i | 0 <= i < |r|
      ensures r[i] == s[i]
    {
      assert Position(i, 1.0) == i as real;
      LerpEndpoints(s[i], s[i + 1], 0.0);
    }
  }

  /** Input `[0, 10, 20]`: ratio 1 gives `[0, 10]`, ratio 1/2 gives `[0, 5, 10, 15]`. */
  lemma LerpExamples()
    ensures TwoPointPass([0.0, 10.0, 20.0], 1.0, Lerp) == [0.0, 10.0]
    ensures TwoPointPass([0.0, 10.0, 20.0], 0.5, Lerp) == [0.0, 5.0, 10.0, 15.0]
  {
    LerpUnitRatio([0.0, 10.0, 20.0]);
    var r := TwoPointPass([0.0, 10.0, 20.0], 0.5, Lerp);
    assert StepsBelow(2.0, 0.5) == 4 by {
      StepsBelowAt(2.0, 0.5, 3);
      StepsBelowAt(2.0, 0.5, 4);
    }
    assert Cell(1, 0.5) == 0 && Cell(2, 0.5) == 1 && Cell(3, 0.5) == 1;
    assert Phase(1, 0.5) == 0.5 && Phase(2, 0.5) == 0.0 && Phase(3, 0.5) == 0.5;
    assert |r| == 4;
    assert r[0] == 0.0 && r[1] == 5.0 && r[2] == 10.0 && r[3] == 15.0;
  }

  /** Input `[0, 10]` at ratio 1/4 under the hold gives `[0, 0, 10, 10]`:
      phases 0, 1/4, 1/2, 3/4, with the tie going to the right sample. */
  lemma PiecewiseConstantExample()
    ensures TwoPointPass([0.0, 10.0], 0.25, PiecewiseConstant) == [0.0, 0.0, 10.0, 10.0]
  {
    assert StepsBelow(1.0, 0.25) == 4 by {
      StepsBelowAt(1.0, 0.25, 3);
      StepsBelowAt(1.0, 0.25, 4);
    }
    assert Cell(1, 0.25) == 0 && Cell(2, 0.25) == 0 && Cell(3, 0.25) == 0;
    var r := TwoPointPass([0.0, 10.0], 0.25, PiecewiseConstant);
    assert |r| == 4;
    assert r[0] == 0.0 && r[1] == 0.0 && r[2] == 10.0 && r[3] == 10.0;
  }

  // ---------------------------------------------------------------------------
  // The Catmull-Rom pass

  /** The input padded with two copies of its last sample. */
  function Padded(s: seq<real>): (p: seq<real>)
    requires |s| >= 1
    ensures |p| == |s| + 2 && p[..|s|] == s
    ensures p[|s|] == s[|s| - 1] && p[|s| + 1] == s[|s| - 1]
  {
    RepeatedLast(s, 2)
  }

  /** Every step of the Catmull-Rom pass over the padded buffer (length
      `n + 2`) reads cells `k`, `k + 1`, `k + 2` with `k + 2 <= n + 1`. */
  lemma CatmullRomIndexInBounds(n: nat, ratio: real, i: nat)
    requires n >= 1 && ratio > 0.0
    requires i < StepsUpTo((n - 1) as real, ratio)
    ensures 0 <= Cell(i, ratio) && Cell(i, ratio) + 2 <= n + 1
  {
    StepsUpToAt((n - 1) as real, ratio, i);
    PhaseInUnit(i, ratio);
  }

  /** The tangent computed at step `i`: half the difference of the samples
      two apart, `(p[k + 2] - p[k]) / 2`. */
  function Tangent(p: seq<real>, ratio: real, i: nat): real
    requires |p| >= 3 && ratio > 0.0
    requires i < StepsUpTo((|p| - 3) as real, ratio)
  {
    CatmullRomIndexInBounds(|p| - 2, ratio, i);
    var k := Cell(i, ratio);
    (p[k + 2] - p[k]) * 0.5
  }

  /** The tangent carried into step `i`: zero at the first step, the
      previous step's tangent afterwards. */
  function IncomingTangent(p: seq<real>, ratio: real, i: nat): real
    requires |p| >= 3 && ratio > 0.0
    requires i <= StepsUpTo((|p| - 3) as real, ratio)
  {
    if i == 0 then 0.0 else Tangent(p, ratio, i - 1)
  }

  /** The output of the Catmull-Rom pass: over the padded buffer `p`, one
      sample per step while the cursor is at most `|p| - 3`. */
  function CatmullRomPass(s: seq<real>, ratio: real): seq<real>
    requires |s| >= 1 && ratio > 0.0
  {
    var p := Padded(s);
    var count := StepsUpTo((|p| - 3) as real, ratio);
    seq(count, i requires 0 <= i < count =>
      CatmullRomIndexInBounds(|s|, ratio, i);
      EvenHermite(p[Cell(i, ratio)], p[Cell(i, ratio) + 1],
                  IncomingTangent(p, ratio, i), Tangent(p, ratio, i), Phase(i, ratio)))
  }

  /** The Catmull-Rom pass yields one sample for each step `i >= 0` with
      `i * ratio <= |s| - 1`. */
  lemma CatmullRomPassLength(s: seq<real>, ratio: real, i: nat)
    requires |s| >= 1 && ratio > 0.0
    ensures |CatmullRomPass(s, ratio)| == StepsUpTo((|s| - 1) as real, ratio)
    ensures i < |CatmullRomPass(s, ratio)| <==> Position(i, ratio) <= (|s| - 1) as real
  {
    assert |Padded(s)| - 3 == |s| - 1;
    StepsUpToAt((|s| - 1) as real, ratio, i);
  }

  /** Sample `i` of the Catmull-Rom pass reads the padded buffer at `k`,
      `k + 1`, `k + 2` (all in bounds) and blends positions `k`, `k + 1`
      with the incoming tangent and the new tangent `(p[k + 2] - p[k]) / 2`. */
  lemma CatmullRomPassAt(s: seq<real>, ratio: real, i: nat)
    requires |s| >= 1 && ratio > 0.0
    requires i < StepsUpTo((|s| - 1) as real, ratio)
    ensures 0 <= Cell(i, ratio) && Cell(i, ratio) + 2 < |Padded(s)|
    ensures CatmullRomPass(s, ratio)[i] ==
      EvenHermite(Padded(s)[Cell(i, ratio)], Padded(s)[Cell(i, ratio) + 1],
                  IncomingTangent(Padded(s), ratio, i),
                  (Padded(s)[Cell(i, ratio) + 2] - Padded(s)[Cell(i, ratio)]) * 0.5,
                  Phase(i, ratio))
  {
    CatmullRomIndexInBounds(|s|, ratio, i);
  }

  /** Tangent chaining: the first step starts from tangent 0, and every
      later step starts from the tangent the step before computed. */
  lemma CatmullRomTangentChain(s: seq<real>, ratio: real, i: nat)
    requires |s| >= 1 && ratio > 0.0
    requires i < StepsUpTo((|s| - 1) as real, ratio)
    ensures i == 0 ==> IncomingTangent(Padded(s), ratio, i) == 0.0
    ensures i > 0 ==> (
      0 <= Cell(i - 1, ratio) && Cell(i - 1, ratio) + 2 < |Padded(s)| &&
      IncomingTangent(Padded(s), ratio, i) ==
        (Padded(s)[Cell(i - 1, ratio) + 2] - Padded(s)[Cell(i - 1, ratio)]) * 0.5)
  {
    if i > 0 {
      CatmullRomIndexInBounds(|s|, ratio, i - 1);
    }
  }

  /** The loop's guard at step `i`, with cursor `f` over the padded buffer
      `p`: it holds exactly while samples remain, and each step moves the
      cursor to the next position. */
  lemma CatmullRomLoopGuard(s: seq<real>, p: seq<real>, ratio: real, i: nat, f: real)
    requires |s| >= 1 && ratio > 0.0 && p == Padded(s)
    requires f == Position(i, ratio)
    ensures f <= (|p| - 3) as real <==> i < |CatmullRomPass(s, ratio)|
    ensures f + ratio == Position(i + 1, ratio)
    ensures i < |CatmullRomPass(s, ratio)| ==> 0 <= f.Floor && f.Floor + 2 < |p|
  {
    CatmullRomPassLength(s, ratio, i);
    PositionNext(i, ratio);
    if i < |CatmullRomPass(s, ratio)| {
      CatmullRomIndexInBounds(|s|, ratio, i);
    }
  }

  /** The loop's body at step `i`: reading cells `k = floor(f)`, `k + 1`,
      `k + 2` of the padded buffer, the tangent `(p[k + 2] - p[k]) / 2` is
      the one carried into step `i + 1`, and blending with the incoming
      tangent gives sample `i` of the pass. */
  lemma CatmullRomLoopBody(s: seq<real>, p: seq<real>, ratio: real, i: nat, f: real,
                           k: int, mPrev: real, mNext: real, y: real)
    requires |s| >= 1 && ratio > 0.0 && p == Padded(s)
    requires f == Position(i, ratio) && i < |CatmullRomPass(s, ratio)|
    requires k == f.Floor && 0 <= k && k + 2 < |p|
    requires mPrev == IncomingTangent(p, ratio, i)
    requires mNext == (p[k + 2] - p[k]) * 0.5
    requires y == EvenHermite(p[k], p[k + 1], mPrev, mNext, f - k as real)
    ensures mNext == IncomingTangent(p, ratio, i + 1)
    ensures y == CatmullRomPass(s, ratio)[i]
  {
    CatmullRomPassLength(s, ratio, i);
    CatmullRomPassAt(s, ratio, i);
  }

  /** A single input sample gives exactly one output sample, equal to it. */
  lemma CatmullRomSingle(x: real, ratio: real)
    requires ratio > 0.0
    ensures CatmullRomPass([x], ratio) == [x]
  {
    CatmullRomPassLength([x], ratio, 0);
    CatmullRomPassLength([x], ratio, 1);
    PositionMonotone(0, 1, ratio);
    assert Position(0, ratio) == 0.0;
    var p := Padded([x]);
    assert p == [x, x, x];
    CatmullRomPassAt([x], ratio, 0);
    EvenHermiteEndpoints(x, x, 0.0, 0.0);
  }

  /** With ratio 1 the Catmull-Rom pass reproduces its input exactly. */
  lemma CatmullRomUnitRatio(s: seq<real>)
    requires |s| >= 1
    ensures CatmullRomPass(s, 1.0) == s
  {
    var r := CatmullRomPass(s, 1.0);
    CatmullRomPassLength(s, 1.0, |s| - 1);
    CatmullRomPassLength(s, 1.0, |s|);
    assert |r| == |s|;
    forall i | 0 <= i < |s|
      ensures r[i] == s[i]
    {
      CatmullRomPassAt(s, 1.0, i);
      assert Position(i, 1.0) == i as real;
      var p := Padded(s);
      EvenHermiteEndpoints(p[i], p[i + 1], IncomingTangent(p, 1.0, i), (p[i + 2] - p[i]) * 0.5);
    }
  }

  /** With ratio 1 every step after the first carries the central-difference
      tangent `(p[i + 1] - p[i - 1]) / 2` at its left sample, as a
      Catmull-Rom spline should. */
  lemma CatmullRomUnitRatioTangents(s: seq<real>, i: nat)
    requires 0 < i < |s|
    ensures i < StepsUpTo((|s| - 1) as real, 1.0)
    ensures IncomingTangent(Padded(s), 1.0, i) == (Padded(s)[i + 1] - Padded(s)[i - 1]) * 0.5
  {
    CatmullRomPassLength(s, 1.0, i);
    assert Position(i, 1.0) == i as real;
    CatmullRomTangentChain(s, 1.0, i);
    assert Position(i - 1, 1.0) == (i - 1) as real;
  }

  // ---------------------------------------------------------------------------
  // All passes

  /** What `do_resample` appends for the selected pass. */
  function Resampled(kind: Dispatch.Interpolation, s: seq<real>, ratio: real): seq<real>
    requires |s| >= 1 && ratio > 0.0
  {
    match kind
    case LinearKind => TwoPointPass(s, ratio, Lerp)
    case PiecewiseConstantKind => TwoPointPass(s, ratio, PiecewiseConstant)
    case TangentlessHermiteKind => TwoPointPass(s, ratio, TangentlessHermite)
    case CatmullRomKind => CatmullRomPass(s, ratio)
  }

  /** Resampling a single sample: nothing from the two-point passes, the
      sample itself from Catmull-Rom. */
  lemma ResampledSingle(kind: Dispatch.Interpolation, x: real, ratio: real)
    requires ratio > 0.0
    ensures Resampled(kind, [x], ratio) == if kind == Dispatch.CatmullRomKind then [x] else []
  {
    if kind == Dispatch.CatmullRomKind {
      CatmullRomSingle(x, ratio);
    }
  }
}
