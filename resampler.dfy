/** `resampleTo16k` of the capture hook: linear interpolation from the device's
    native rate to the 16 kHz target rate, without any anti-aliasing filter.

    The source computes `ratio = fromRate / 16000` and `srcIndex = i * ratio`
    in floating point. Sample rates are whole numbers of hertz, so the model
    does the index arithmetic exactly on integers: the read position of output
    sample `i` is `i * fromRate / 16000`, its whole part is
    `(i * fromRate) div 16000` and its fractional part is
    `((i * fromRate) mod 16000) / 16000`. Sample values are reals. */
module Resampler {
  import opened Constants

  /** `Math.floor(input.length / ratio)`: the number of output samples, the
      largest `n` with `n * (fromRate / 16000) <= len`. */
  function OutputLength(len: nat, fromRate: nat): (n: nat)
    requires fromRate > 0
    ensures n * fromRate <= len * AudioSampleRate < (n + 1) * fromRate
  {
    var n := (len * AudioSampleRate) / fromRate;
    assert len * AudioSampleRate == n * fromRate + (len * AudioSampleRate) % fromRate;
    n
  }

  /** `srcIndexFloor`: the whole part of the read position. */
  function SrcIndexFloor(i: nat, fromRate: nat): nat
  {
    (i * fromRate) / AudioSampleRate
  }

  /** `srcIndexCeil`: the next sample, clamped to the last valid index. */
  function SrcIndexCeil(i: nat, fromRate: nat, len: nat): int
  {
    var f := SrcIndexFloor(i, fromRate);
    if f + 1 < len - 1 then f + 1 else len - 1
  }

  /** `t`: the fractional part of the read position. */
  function Weight(i: nat, fromRate: nat): real
  {
    ((i * fromRate) % AudioSampleRate) as real / AudioSampleRate as real
  }

  /** Every index the loop reads lies inside the input, the ceiling index is
      the floor index or the one after it, and the weight lies in [0, 1). */
  lemma ReadIndexBounds(len: nat, fromRate: nat, i: nat)
    requires fromRate > 0
    requires i < OutputLength(len, fromRate)
    ensures 0 <= SrcIndexFloor(i, fromRate) < len
    ensures 0 <= SrcIndexCeil(i, fromRate, len) < len
    ensures SrcIndexFloor(i, fromRate) <= SrcIndexCeil(i, fromRate, len) <= SrcIndexFloor(i, fromRate) + 1
    ensures 0.0 <= Weight(i, fromRate) < 1.0
  {
    var n := OutputLength(len, fromRate);
    assert (i + 1) * fromRate <= n * fromRate;
    assert i * fromRate < len * AudioSampleRate;
    assert SrcIndexFloor(i, fromRate) * AudioSampleRate <= i * fromRate;
  }

  /** `input[srcIndexFloor]`: the sample before the read position. */
  function FloorSample(input: seq<real>, fromRate: nat, i: nat): real
    requires fromRate > 0
    requires i < OutputLength(|input|, fromRate)
  {
    ReadIndexBounds(|input|, fromRate, i);
    input[SrcIndexFloor(i, fromRate)]
  }

  /** `input[srcIndexCeil]`: the sample after the read position. */
  function CeilSample(input: seq<real>, fromRate: nat, i: nat): real
    requires fromRate > 0
    requires i < OutputLength(|input|, fromRate)
  {
    ReadIndexBounds(|input|, fromRate, i);
    input[SrcIndexCeil(i, fromRate, |input|)]
  }

  /** The value of output sample `i`: `input[f] * (1 - t) + input[c] * t`. */
  function Interpolated(input: seq<real>, fromRate: nat, i: nat): real
    requires fromRate > 0
    requires i < OutputLength(|input|, fromRate)
  {
    var t := Weight(i, fromRate);
    FloorSample(input, fromRate, i) * (1.0 - t) + CeilSample(input, fromRate, i) * t
  }

  /** The whole resampled block, as a specification. */
  function Resampled(input: seq<real>, fromRate: nat): (output: seq<real>)
    requires fromRate > 0
    ensures |output| == OutputLength(|input|, fromRate)
  {
    seq(OutputLength(|input|, fromRate), i requires 0 <= i < OutputLength(|input|, fromRate) =>
      Interpolated(input, fromRate, i))
  }

  /** `resampleTo16k(input, fromRate)`: fills a preallocated output array in
      an index loop. */
  method ResampleTo16k(input: seq<real>, fromRate: nat) returns (output: seq<real>)
    requires fromRate > 0
    ensures output == Resampled(input, fromRate)
  {
    var outputLength := OutputLength(|input|, fromRate);
    var out := new real[outputLength];
    for i := 0 to outputLength
      invariant forall k :: 0 <= k < i ==> out[k] == Interpolated(input, fromRate, k)
    {
      ReadIndexBounds(|input|, fromRate, i);
      var srcIndexFloor := (i * fromRate) / AudioSampleRate;
      var srcIndexCeil := if srcIndexFloor + 1 < |input| - 1 then srcIndexFloor + 1 else |input| - 1;
      var t := ((i * fromRate) % AudioSampleRate) as real / AudioSampleRate as real;
      out[i] := input[srcIndexFloor] * (1.0 - t) + input[srcIndexCeil] * t;
    }
    output := out[..];
  }

  /** At the target rate itself the resampler is the identity. */
  lemma SameRateIsIdentity(input: seq<real>)
    ensures Resampled(input, AudioSampleRate) == input
  {
    var output := Resampled(input, AudioSampleRate);
    assert |output| == |input|;
    forall i | 0 <= i < |input|
      ensures output[i] == input[i]
    {
      assert SrcIndexFloor(i, AudioSampleRate) == i;
      assert Weight(i, AudioSampleRate) == 0.0;
    }
  }

  /** Each output sample lies between the two input samples it interpolates. */
  lemma OutputBetweenNeighbours(input: seq<real>, fromRate: nat, i: nat)
    requires fromRate > 0
    requires i < OutputLength(|input|, fromRate)
    ensures var a, b := FloorSample(input, fromRate, i), CeilSample(input, fromRate, i);
            (a <= b ==> a <= Resampled(input, fromRate)[i] <= b) &&
            (b <= a ==> b <= Resampled(input, fromRate)[i] <= a)
  {
    ReadIndexBounds(|input|, fromRate, i);
    var x := Resampled(input, fromRate)[i];
    assert x == Interpolated(input, fromRate, i);
    ScaledBetween(FloorSample(input, fromRate, i), CeilSample(input, fromRate, i), Weight(i, fromRate), x);
  }

  lemma ScaledBetween(a: real, b: real, t: real, x: real)
    requires 0.0 <= t < 1.0
    requires x == a * (1.0 - t) + b * t
    ensures a <= b ==> a <= x <= b
    ensures b <= a ==> b <= x <= a
  {
    var d := if a <= b then b - a else a - b;
    NonNegativeProduct(d, t);
    NonNegativeProduct(d, 1.0 - t);
    assert d * (1.0 - t) == d - d * t;
    assert x == a + (b - a) * t;
    assert (b - a) * t == if a <= b then d * t else -(d * t);
  }

  lemma NonNegativeProduct(x: real, y: real)
    requires 0.0 <= x && 0.0 <= y
    ensures 0.0 <= x * y
  {
  }

  /** A constant signal stays constant, at any rate. */
  lemma ConstantSignalStaysConstant(input: seq<real>, fromRate: nat, v: real)
    requires fromRate > 0
    requires forall k :: 0 <= k < |input| ==> input[k] == v
    ensures forall i :: 0 <= i < |Resampled(input, fromRate)| ==> Resampled(input, fromRate)[i] == v
  {
    forall i | 0 <= i < |Resampled(input, fromRate)|
      ensures Resampled(input, fromRate)[i] == v
    {
      ReadIndexBounds(|input|, fromRate, i);
    }
  }

  /** A 48 kHz chunk of 8192 samples (two 4096-sample frames) resamples to
      2730 samples, more than the nominal 1600. */
  lemma TwoFramesAt48k()
    ensures OutputLength(8192, 48000) == 2730
  {
  }
}
