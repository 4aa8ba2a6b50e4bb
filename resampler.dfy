/** The resampler state and its operations: construction from the command
    line arguments, the two input-buffer helpers, the dispatch on the
    interpolation name and the four passes, each of which appends to
    `outputSamples` while walking a cursor over `inputSamples`. */
module Resamplers {
  import opened Algorithms
  import opened Filedata
  import opened Passes
  import Dispatch

  /** An unsigned 32-bit integer. */
  newtype u32 = x: int | 0 <= x < 0x1_0000_0000

  /** How a call of `DoResample` ended: the pass ran, or the name matched no pass. */
  datatype Outcome = Done | UnknownInterpolation(name: string)

  /** Appending the next element of `xs` to a buffer holding `a` and the
      first `i` elements of `xs` gives `a` and the first `i + 1`. */
  lemma AppendNext(a: seq<real>, xs: seq<real>, i: nat)
    requires i < |xs|
    ensures (a + xs[..i]) + [xs[i]] == a + xs[..i + 1]
  {
    assert xs[..i + 1] == xs[..i] + [xs[i]];
  }

  class Resampler {
    var inputSamples: seq<real>
    var outputSamples: seq<real>
    var ratio: real
    var inputDatatype: FileData
    var outputDatatype: FileData
    var sourceName: string
    var destName: string
    var rowLen: seq<u32>

    /** `Resampler::from_args`: empty buffers, the ratio of input to output
        rate, and both names kept verbatim beside their classification. */
    constructor FromArgs(source: string, dest: string, inputRatio: real, outputRatio: real)
      requires outputRatio != 0.0
      ensures inputSamples == [] && outputSamples == [] && rowLen == []
      ensures ratio * outputRatio == inputRatio
      ensures inputDatatype == FromString(source) && outputDatatype == FromString(dest)
      ensures sourceName == source && destName == dest
    {
      inputSamples := [];
      outputSamples := [];
      ratio := inputRatio / outputRatio;
      inputDatatype := FromString(source);
      outputDatatype := FromString(dest);
      sourceName := source;
      destName := dest;
      rowLen := [];
    }

    /** `repeat_last(n)`: append `n` copies of the last input sample; an
        empty input is left alone. Nothing else changes. */
    method RepeatLast(n: nat)
      modifies this`inputSamples
      ensures inputSamples == RepeatedLast(old(inputSamples), n)
    {
      if |inputSamples| > 0 {
        var lastVal := inputSamples[|inputSamples| - 1];
        inputSamples := inputSamples + seq(n, _ => lastVal);
      }
    }

    /** `remove_last(n)`: pop the input `n` times; a pop of an empty input
        does nothing. Nothing else changes. */
    method RemoveLast(n: nat)
      modifies this`inputSamples
      ensures inputSamples == WithoutLast(old(inputSamples), n)
    {
      for k := 0 to n
        invariant inputSamples == WithoutLast(old(inputSamples), k)
      {
        if |inputSamples| > 0 {
          inputSamples := inputSamples[..|inputSamples| - 1];
        }
      }
    }

    /** `do_resample`: lower-case the name, run the pass it names, and
        report an unknown name without touching anything. */
    method DoResample(name: string) returns (outcome: Outcome)
      requires |inputSamples| >= 1 && ratio > 0.0
      modifies this`inputSamples, this`outputSamples
      ensures inputSamples == old(inputSamples)
      ensures Dispatch.Select(name) == Dispatch.None ==>
        outcome == UnknownInterpolation(name) && outputSamples == old(outputSamples)
      ensures Dispatch.Select(name).Some? ==>
        outcome == Done &&
        outputSamples == old(outputSamples) + Resampled(Dispatch.Select(name).value, old(inputSamples), ratio)
    {
      match Dispatch.Select(name)
      case None =>
        outcome := UnknownInterpolation(name);
      case Some(kind) =>
        match kind {
          case LinearKind => DoLerp();
          case PiecewiseConstantKind => DoPiecewiseConstant();
          case TangentlessHermiteKind => DoTangentlessHermite();
          case CatmullRomKind => DoCatmullRomSpline();
        }
        outcome := Done;
    }

    /** The loop shared by the three two-point passes: from cursor 0 in
        steps of `ratio`, while the cursor is below `|input| - 1`, append
        the kernel applied to the samples at `floor(f)` and `floor(f) + 1`
        with phase `f - floor(f)`. */
    method AppendTwoPointPass(kernel: (real, real, real) -> real)
      requires |inputSamples| >= 1 && ratio > 0.0
      modifies this`outputSamples
      ensures outputSamples == old(outputSamples) + TwoPointPass(inputSamples, ratio, kernel)
    {
      ghost var expected := TwoPointPass(inputSamples, ratio, kernel);
      var f := 0.0;
      ghost var i: nat := 0;
      while f < (|inputSamples| - 1) as real
        invariant f == Position(i, ratio)
        invariant i <= |expected|
        invariant outputSamples == old(outputSamples) + expected[..i]
        decreases |expected| - i
      {
        TwoPointPassShape(inputSamples, ratio, kernel, i);
        var k := f.Floor;
        outputSamples := outputSamples + [kernel(inputSamples[k], inputSamples[k + 1], f - k as real)];
        assert expected[..i + 1] == expected[..i] + [expected[i]];
        PositionNext(i, ratio);
        f := f + ratio;
        i := i + 1;
      }
      TwoPointPassShape(inputSamples, ratio, kernel, i);
      assert expected[..i] == expected;
    }

    /** `do_piecewise_constant`. */
    method DoPiecewiseConstant()
      requires |inputSamples| >= 1 && ratio > 0.0
      modifies this`outputSamples
      ensures outputSamples == old(outputSamples) + TwoPointPass(inputSamples, ratio, PiecewiseConstant)
    {
      AppendTwoPointPass(PiecewiseConstant);
    }

    /** `do_lerp`. */
    method DoLerp()
      requires |inputSamples| >= 1 && ratio > 0.0
      modifies this`outputSamples
      ensures outputSamples == old(outputSamples) + TwoPointPass(inputSamples, ratio, Lerp)
    {
      AppendTwoPointPass(Lerp);
    }

    /** `do_tangentless_hermite`. */
    method DoTangentlessHermite()
      requires |inputSamples| >= 1 && ratio > 0.0
      modifies this`outputSamples
      ensures outputSamples == old(outputSamples) + TwoPointPass(inputSamples, ratio, TangentlessHermite)
    {
      AppendTwoPointPass(TangentlessHermite);
    }

    /** The loop of `do_catmull_rom_spline`, over an input already padded
        with two copies of its last sample: walk the cursor while it is at
        most `|padded| - 3`, carrying the last computed tangent into the
        next step. */
    method AppendCatmullRomPass(ghost original: seq<real>)
      requires |original| >= 1 && ratio > 0.0
      requires inputSamples == Padded(original)
      modifies this`outputSamples
      ensures outputSamples == old(outputSamples) + CatmullRomPass(original, ratio)
    {
      ghost var expected := CatmullRomPass(original, ratio);
      var p, r := inputSamples, ratio;
      var f := 0.0;
      var mCurrent := 0.0;
      ghost var i: nat := 0;
      CatmullRomLoopGuard(original, p, r, i, f);
      while f <= (|p| - 3) as real
        invariant f == Position(i, r)
        invariant i <= |expected|
        invariant mCurrent == IncomingTangent(p, r, i)
        invariant outputSamples == old(outputSamples) + expected[..i]
        decreases |expected| - i
      {
        CatmullRomLoopGuard(original, p, r, i, f);
        var k := f.Floor;
        var mPrev := mCurrent;
        mCurrent := (p[k + 2] - p[k]) * 0.5;
        var y := EvenHermite(p[k], p[k + 1], mPrev, mCurrent, f - k as real);
        CatmullRomLoopBody(original, p, r, i, f, k, mPrev, mCurrent, y);
        AppendNext(old(outputSamples), expected, i);
        outputSamples := outputSamples + [y];
        f := f + r;
        i := i + 1;
      }
      CatmullRomLoopGuard(original, p, r, i, f);
      assert expected[..i] == expected;
    }

    /** `do_catmull_rom_spline`: pad the input with two copies of its last
        sample, run the spline pass over it, then remove the padding again. */
    method DoCatmullRomSpline()
      requires |inputSamples| >= 1 && ratio > 0.0
      modifies this`inputSamples, this`outputSamples
      ensures inputSamples == old(inputSamples)
      ensures outputSamples == old(outputSamples) + CatmullRomPass(old(inputSamples), ratio)
    {
      ghost var original := inputSamples;
      RepeatLast(2);
      AppendCatmullRomPass(original);
      RemoveLast(2);
      RemoveUndoesRepeat(original, 2);
    }
  }

  /** A caller's view, in the order the command-line front end uses the
      resampler: construct, load samples, resample by name. */
  method ResampleScenario(source: string, dest: string)
  {
    var r := new Resampler.FromArgs(source, dest, 1.0, 2.0);
    assert r.ratio == 0.5;
    r.inputSamples := [0.0, 10.0, 20.0];
    Dispatch.SelectAcceptedExamples();
    LerpExamples();
    var outcome := r.DoResample("LERP");
    assert outcome == Done;
    assert r.outputSamples == [0.0, 5.0, 10.0, 15.0];
    assert r.inputSamples == [0.0, 10.0, 20.0];
  }

  /** A caller asking for a pass by a name that is nobody's alias gets the
      name back as an error, and the resampler is left as it was. */
  method UnknownNameScenario(source: string, dest: string)
  {
    var r := new Resampler.FromArgs(source, dest, 1.0, 2.0);
    assert r.ratio == 0.5;
    r.inputSamples := [0.0, 10.0, 20.0];
    Dispatch.SelectRejectedExamples();
    var outcome := r.DoResample("cubic");
    assert outcome == UnknownInterpolation("cubic");
    assert r.outputSamples == [] && r.inputSamples == [0.0, 10.0, 20.0];
  }
}
