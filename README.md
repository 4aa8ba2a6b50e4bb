# Fixed-ratio resampler, modelled in Dafny

This project models the core of a command-line sample resampler. The resampler takes
a sequence of scalar samples and a ratio `input_ratio / output_ratio`. It produces a new
sequence by walking a fractional cursor `f` from 0 in steps of the ratio. At each step
it evaluates one of four interpolation kernels at the cell `floor(f)` with phase
`f - floor(f)`:
- piecewise-constant hold
- linear interpolation
- tangentless (smoothstep) Hermite
- a Catmull-Rom-style cubic Hermite spline

The spline pass pads the input with two copies of its last sample, carries each step's
tangent into the next step, and removes the padding again. The name of the pass is
given as a case-insensitive string. The names of the source and the destination are
classified by their last `.`-separated segment.

Five modules cover the four source files:

- `Algorithms` (`algorithms.dfy`) models `src/algorithms.rs`: the four kernels as
  functions over `real`, with lemmas about them: endpoint values, bounds, monotonicity,
  symmetry, and reduction of the cubic Hermite basis to the tangentless kernel.
- `Filedata` (`filedata.dfy`) models `src/filedata.rs`: `FileData` and `FromString`.
  `Split` models `str::split('.')` and carries a round-trip contract with `Join`.
  Lemmas classify a name by the text after its last `.`.
- `Dispatch` (`dispatch.dfy`) models the name matching of `do_resample` in
  `src/resamplers/do_algorithm.rs`: the alias table, with ASCII lower-casing.
- `Passes` (`passes.dfy`) specifies, as functions of the input and the ratio, what the
  loops of `src/resamplers/do_algorithm.rs` and the buffer edits of
  `src/resamplers/core.rs` compute. It includes:
  - the step counts of the loops `while f < N - 1` and `while f <= N - 1`;
  - index safety;
  - the tangent chaining;
  - the buffer edits `RepeatedLast`/`WithoutLast`.
- `Resamplers` (`resampler.dfy`) models the state-changing code of both
  `src/resamplers/core.rs` and `src/resamplers/do_algorithm.rs`: the class `Resampler`
  with the fields of the Rust struct. Its methods update `inputSamples`/`outputSamples` in place. Each loop keeps
  the real cursor `f` (advanced by `f := f + ratio`) and a ghost step counter `i`. The
  invariant is `f == i * ratio`, and the loop terminates on an integer measure.

Samples, the ratio and the cursor are exact `real`s, so `f` after `i` additions is
exactly `i * ratio`.

Two preconditions stand for what the code silently assumes:
- `ratio > 0`: otherwise the loops never end, except for a two-point pass over a single
  sample (see "## Left out").
- A non-empty input: otherwise `len() - 1` / `len() - 3` underflows `usize` and the
  program panics.

An unknown interpolation name, for which the source panics, is the result
`UnknownInterpolation(name)`. In that case nothing changes.

Notes on behaviour:
- **Output length.** On N >= 2 samples the two-point passes append `ceil((N - 1) / ratio)` samples, one
  for each `i >= 0` with `i * ratio < N - 1`.
- **Symmetry.** Because the smoothstep weight satisfies `h(1 - t) = 1 - h(t)`, the
  tangentless Hermite kernel satisfies `TH(a, b, t) = TH(b, a, 1 - t)` and
  `TH(a, b, t) + TH(a, b, 1 - t) = a + b`.
- **Single-sample input.** A single input sample gives an empty output from the
  two-point passes. It gives exactly one sample, equal to the input, from the
  Catmull-Rom pass, whose padded buffer makes the guard `0 <= 0` true.

## Model

| member | source | states |
|---|---|---|
| Algorithms.PiecewiseConstant | src/algorithms.rs:2-8 | the hold always returns one of its two endpoints; which one is stated by PiecewiseConstantIsNearest |
| Algorithms.Lerp | src/algorithms.rs:11-13 | the result is `start` moved by the fraction t of `end - start`; endpoints, bounds and monotonicity in LerpEndpoints, LerpBetween, LerpMonotone |
| Algorithms.TangentlessHermite | src/algorithms.rs:16-19 | the result is `start` moved by the fraction h(t) = t²(3-2t) of `end - start`; properties in TangentlessHermiteIsEasedLerp, TangentlessHermiteEndpoints, TangentlessHermiteSymmetric, TangentlessHermiteBetween, TangentlessHermiteMonotone |
| Algorithms.EvenHermite | src/algorithms.rs:22-30 | the cubic Hermite basis is the tangentless blend of the positions plus (t³-2t²+t)·m0 + (t³-t²)·m1; properties in EvenHermiteEndpoints, EvenHermiteZeroTangents |
| Algorithms.PiecewiseConstantIsNearest | src/algorithms.rs:2-8 | the hold returns the endpoint nearer to the phase; the tie at t = 1/2 goes to `end`; phase 0 gives `start` |
| Algorithms.LerpEndpoints | src/algorithms.rs:11-13 | lerp(a,b,0) = a, lerp(a,b,1) = b, lerp(a,a,t) = a |
| Algorithms.LerpMonotone | src/algorithms.rs:11-13 | for s < t the value at t is above the value at s when start < end, below it when start > end, equal when they are equal |
| Algorithms.LerpBetween | src/algorithms.rs:11-13 | for t in [0,1] the result lies between min(a,b) and max(a,b) |
| Algorithms.SmoothstepBounds | src/algorithms.rs:17 | for t in [0,1] the blend weight t²(3-2t) lies in [0,1] |
| Algorithms.SmoothstepMonotone | src/algorithms.rs:17 | the blend weight t²(3-2t) is strictly increasing on [0,1] |
| Algorithms.SmoothstepReflection | src/algorithms.rs:17 | h(1-t) = 1 - h(t) |
| Algorithms.TangentlessHermiteIsEasedLerp | src/algorithms.rs:16-19 | the tangentless Hermite kernel is lerp at phase h(t) |
| Algorithms.TangentlessHermiteEndpoints | src/algorithms.rs:16-19 | value a at t = 0, b at t = 1, and a on a constant pair |
| Algorithms.TangentlessHermiteSymmetric | src/algorithms.rs:16-19 | TH(a,b,t) = TH(b,a,1-t), and values at reflected phases sum to the endpoints' sum: TH(a,b,t) + TH(a,b,1-t) = a + b |
| Algorithms.TangentlessHermiteBetween | src/algorithms.rs:16-19 | for t in [0,1] the result lies between a and b |
| Algorithms.TangentlessHermiteMonotone | src/algorithms.rs:16-19 | for phases 0 <= s < t <= 1 the kernel moves strictly from start towards end (constant when they are equal) |
| Algorithms.EvenHermiteEndpoints | src/algorithms.rs:22-30 | the cubic Hermite basis gives p0 at t = 0 and p1 at t = 1 for any tangents |
| Algorithms.EvenHermiteZeroTangents | src/algorithms.rs:22-30 | with m0 = m1 = 0 the cubic Hermite basis equals the tangentless Hermite kernel |
| Filedata.Split | src/filedata.rs:9 | `split('.')` yields at least one piece (so `last().unwrap()` cannot fail), and joining the pieces with `.` gives back the name |
| Filedata.SplitPiecesDotFree | src/filedata.rs:9 | no piece contains `.` |
| Filedata.SplitJoin | src/filedata.rs:9 | splitting the join of dot-free pieces gives back exactly those pieces |
| Filedata.LastSegmentAfterLastDot | src/filedata.rs:9 | the last segment is all the text after the last `.` |
| Filedata.LastSegmentWithoutDot | src/filedata.rs:9 | a name without `.` is its own last segment |
| Filedata.FromStringAfterLastDot | src/filedata.rs:8-14 | `CSV` iff the text after the last `.` is exactly `csv`; `Terminal` iff it is `terminal`, `console` or `tty`; `Nothing` otherwise |
| Filedata.FromStringWithoutDot | src/filedata.rs:8-14 | a name without `.` is classified whole by the same table |
| Filedata.FromString | src/filedata.rs:8-14 | the kind of the last `.`-separated segment; classified exactly by FromStringAfterLastDot and FromStringWithoutDot |
| Filedata.FromStringTerminalExamples | src/filedata.rs:8-14 | `terminal` and `console` give `Terminal` |
| Filedata.FromStringEmptyExample | src/filedata.rs:8-14 | the empty name gives `Nothing` |
| Filedata.FromStringExamplesAccepted | src/filedata.rs:8-14 | `out.csv` gives `CSV`; `log.tty` gives `Terminal` |
| Filedata.FromStringExamplesRejected | src/filedata.rs:8-14 | `a.csv.txt`, upper-case `DATA.CSV` and `samples.` give `Nothing` |
| Dispatch.Select | src/resamplers/do_algorithm.rs:7-16 | a selected pass has the lower-cased name among its aliases; no selection means the name is nobody's alias; the converse in SelectByAliases |
| Dispatch.ToLowerIdempotent | src/resamplers/do_algorithm.rs:8 | lower-casing leaves no upper-case ASCII letter and is idempotent |
| Dispatch.AliasesDisjoint | src/resamplers/do_algorithm.rs:9-13 | no name selects two passes |
| Dispatch.SelectByAliases | src/resamplers/do_algorithm.rs:8-14 | a name selects a pass iff its lower-cased form is one of that pass's aliases, and selects nothing (the panic arm) iff it is nobody's alias |
| Dispatch.SelectCaseInsensitive | src/resamplers/do_algorithm.rs:8 | selection ignores ASCII case |
| Dispatch.SelectAcceptedExamples | src/resamplers/do_algorithm.rs:8-14 | `LERP`, `Cat`, `th` and `P` select their passes |
| Dispatch.SelectRejectedExamples | src/resamplers/do_algorithm.rs:8-14 | `cubic` and the empty name select nothing |
| Passes.RepeatedLast | src/resamplers/core.rs:35-41 | an empty buffer stays empty; otherwise the old buffer is a prefix and exactly n copies of its last element follow |
| Passes.WithoutLast | src/resamplers/core.rs:44-48 | n pops remove min(n, len) elements from the end and leave a prefix |
| Passes.RemoveUndoesRepeat | src/resamplers/core.rs:35-48 | removing n after repeating n restores the buffer (empty or not) |
| Passes.WithoutLastTwice | src/resamplers/core.rs:44-48 | popping a then b times is popping a + b times |
| Passes.PositionNext | src/resamplers/do_algorithm.rs:32 | `f += ratio` moves the cursor from step i to step i + 1 |
| Passes.PositionMonotone | src/resamplers/do_algorithm.rs:21-32 | for ratio > 0 the cursor never decreases and is never negative |
| Passes.PhaseInUnit | src/resamplers/do_algorithm.rs:24-29 | the phase handed to a kernel is in [0,1) and the cell is non-negative |
| Passes.StepsBelow | src/resamplers/do_algorithm.rs:23 | the step count of `while f < bound` is the first step not below the bound, every earlier step being below it |
| Passes.StepsUpTo | src/resamplers/do_algorithm.rs:83 | the step count of `while f <= bound` is the first step beyond the bound, every earlier step being at most it |
| Passes.StepsBelowCounts | src/resamplers/do_algorithm.rs:21-33 | StepsBelow counts exactly the i >= 0 with i * ratio < bound |
| Passes.StepsUpToCounts | src/resamplers/do_algorithm.rs:83-104 | StepsUpTo counts exactly the i >= 0 with i * ratio <= bound |
| Passes.TwoPointIndexInBounds | src/resamplers/do_algorithm.rs:23-28 | every step of a two-point pass reads k = floor(f) >= 0 and k + 1 <= N - 1 |
| Passes.TwoPointPass | src/resamplers/do_algorithm.rs:20-67 | the output of a two-point pass; its length and samples are stated by TwoPointPassShape |
| Passes.TwoPointPassShape | src/resamplers/do_algorithm.rs:21-33 | a two-point pass has one sample per i >= 0 with i * ratio < N - 1, and sample i is the kernel at input[floor(i*r)], input[floor(i*r)+1] with phase frac(i*r) |
| Passes.TwoPointPassSingle | src/resamplers/do_algorithm.rs:23 | a single input sample gives no output |
| Passes.TwoPointPassBetween | src/resamplers/do_algorithm.rs:40-49 | every lerp and tangentless Hermite output lies between the two input samples it interpolates |
| Passes.LerpUnitRatio | src/resamplers/do_algorithm.rs:37-51 | at ratio 1 the lerp pass reproduces the input without its last sample |
| Passes.LerpExamples | src/resamplers/do_algorithm.rs:37-51 | [0,10,20] gives [0,10] at ratio 1 and [0,5,10,15] at ratio 1/2 |
| Passes.PiecewiseConstantExample | src/resamplers/do_algorithm.rs:20-34 | [0,10] at ratio 1/4 gives [0,0,10,10] |
| Passes.Ceil | src/resamplers/do_algorithm.rs:23 | the smallest whole number not below a positive real |
| Passes.Padded | src/resamplers/do_algorithm.rs:72 | the padded buffer is the input followed by two copies of its last sample |
| Passes.CatmullRomIndexInBounds | src/resamplers/do_algorithm.rs:83-90 | over the padded length N + 2 the guard f <= N - 1 keeps k + 2 <= N + 1 |
| Passes.CatmullRomPass | src/resamplers/do_algorithm.rs:71-107 | the output of the spline pass; its length and samples are stated by CatmullRomPassLength, CatmullRomPassAt and CatmullRomTangentChain |
| Passes.CatmullRomPassLength | src/resamplers/do_algorithm.rs:83-104 | the pass has one sample per i >= 0 with i * ratio <= N - 1 |
| Passes.CatmullRomPassAt | src/resamplers/do_algorithm.rs:84-101 | sample i blends padded positions k, k + 1 with the incoming tangent and (p[k+2] - p[k]) / 2 at phase frac(i*r) |
| Passes.CatmullRomTangentChain | src/resamplers/do_algorithm.rs:79-93 | the first step's m0 is 0; each later step's m0 is (p[k'+2] - p[k']) / 2 of the step before |
| Passes.CatmullRomLoopGuard | src/resamplers/do_algorithm.rs:83-103 | with cursor f == i * ratio, the guard f <= len - 3 over the padded buffer holds exactly while the pass has a sample i, and then floor(f), floor(f) + 2 are in bounds |
| Passes.CatmullRomLoopBody | src/resamplers/do_algorithm.rs:84-101 | the loop body's value, blended from cells floor(f), floor(f) + 1 with the carried tangent and the new one, is sample i of the pass, and the new tangent is the one carried into step i + 1 |
| Passes.CatmullRomSingle | src/resamplers/do_algorithm.rs:71-107 | a single input sample x gives exactly [x] |
| Passes.CatmullRomUnitRatio | src/resamplers/do_algorithm.rs:71-107 | at ratio 1 the Catmull-Rom pass reproduces its input exactly |
| Passes.CatmullRomUnitRatioTangents | src/resamplers/do_algorithm.rs:92-93 | at ratio 1 the tangent carried into step i > 0 is the central difference (p[i+1] - p[i-1]) / 2 |
| Passes.ResampledSingle | src/resamplers/do_algorithm.rs:7-16 | on one sample the two-point passes give nothing and Catmull-Rom gives that sample |
| Resamplers.Resampler.FromArgs | src/resamplers/core.rs:15-31 | empty buffers and row lengths; ratio * output_ratio = input_ratio; both kinds from `FromString`; names kept verbatim |
| Resamplers.Resampler.RepeatLast | src/resamplers/core.rs:35-41 | the input becomes `RepeatedLast(old input, n)`; no other field changes |
| Resamplers.Resampler.RemoveLast | src/resamplers/core.rs:44-48 | the input becomes `WithoutLast(old input, n)` (loop of pops); no other field changes |
| Resamplers.Resampler.DoResample | src/resamplers/do_algorithm.rs:7-16 | unknown name: error result and no change; otherwise the selected pass's output is appended and the input is unchanged |
| Resamplers.Resampler.AppendTwoPointPass | src/resamplers/do_algorithm.rs:21-33 | the loop appends exactly the two-point pass of the kernel to the old output |
| Resamplers.Resampler.DoPiecewiseConstant | src/resamplers/do_algorithm.rs:20-34 | old output followed by the piecewise-constant pass; input unchanged |
| Resamplers.Resampler.DoLerp | src/resamplers/do_algorithm.rs:37-51 | old output followed by the lerp pass; input unchanged |
| Resamplers.Resampler.DoTangentlessHermite | src/resamplers/do_algorithm.rs:55-67 | old output followed by the tangentless Hermite pass; input unchanged |
| Resamplers.Resampler.AppendCatmullRomPass | src/resamplers/do_algorithm.rs:74-104 | over the padded input, the loop appends exactly the Catmull-Rom pass of the unpadded input to the old output |
| Resamplers.Resampler.DoCatmullRomSpline | src/resamplers/do_algorithm.rs:71-107 | the input afterwards equals the input before (the padding is removed); the output is the old output followed by the Catmull-Rom pass |

## Left out

- `src/resamplers/file_use.rs` is not part of this model. It covers reading samples from stdin or a CSV file, writing them, parsing `f32` text, and the vestigial `row_len` bookkeeping. `rowLen` exists only as a field that the constructor leaves empty.
- `src/main.rs` is not part of this model. It is command-line parsing and orchestration; `ResampleScenario` and `UnknownNameScenario` play its part as clients.
- IEEE `f32` arithmetic is not modelled: no rounding, and no drift between the accumulated `f += ratio` and the exact `i * ratio`. A zero `output_ratio` (which yields `inf`/`NaN`) is excluded by the precondition of `FromArgs`. All values are `real`.
- `to_lowercase` is modelled as ASCII lower-casing. Every alias is ASCII.
- Panics are not reproduced. The unknown interpolation name is an `UnknownInterpolation` result. The unknown `FileData` checks live in `data_get`/`data_put`, which are not modelled.
- Resamplers.Resampler.DoResample, DoLerp, DoPiecewiseConstant, DoTangentlessHermite, DoCatmullRomSpline, AppendTwoPointPass and AppendCatmullRomPass require `ratio > 0` and a non-empty input. The source does not check either. With `ratio <= 0` its loops never end, except that a two-point pass over a single sample stops at once (the guard `0 < 0` fails whatever the ratio) and appends nothing; the precondition excludes that terminating case too. With an empty input `len() - 1` / `len() - 3` underflows.
- Resamplers.Resampler.AppendTwoPointPass: the three two-point passes of the source are three copies of one loop that differ only in the kernel. The model writes that loop once and passes the kernel as a function value.
- Resamplers.Resampler.AppendCatmullRomPass: the loop of `do_catmull_rom_spline` is its own method, called between the padding and its removal. It reads the three cells directly instead of through the `position` array.
