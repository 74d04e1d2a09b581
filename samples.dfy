/** Stereo samples and the stateful source that produces them.

    The signal graph (a `Net64`) is opaque floating-point DSP; all the core
    relies on is that each call of `get_stereo` (or of the `next_sample`
    closure that wraps it) yields one (left, right) pair and advances the
    graph by one tick. A `SampleSource` is exactly that: an abstract stream,
    `At(k)` being the pair the k-th call returns, and a counter of the calls
    made so far.
 */
module Samples {

  /** One (left, right) pair for a single instant. `F` is the source's
      floating-point type, left abstract. */
  datatype StereoSample<F> = StereoSample(left: F, right: F)

  /** Applies a per-value conversion to both channels of a sample. */
  function Convert<F, T>(s: StereoSample<F>, toOutput: F -> T): (t: StereoSample<T>)
  {
    StereoSample(toOutput(s.left), toOutput(s.right))
  }

  /** Converts every sample of a sequence, keeping the order. */
  function ConvertAll<F, T>(ss: seq<StereoSample<F>>, toOutput: F -> T): (ts: seq<StereoSample<T>>)
    ensures |ts| == |ss|
    ensures forall k :: 0 <= k < |ss| ==> ts[k] == Convert(ss[k], toOutput)
  {
    seq(|ss|, k requires 0 <= k < |ss| => Convert(ss[k], toOutput))
  }

  /** A stateful producer of stereo samples: the signal graph seen through
      `get_stereo`, or the `next_sample` closure handed to the frame writer. */
  class SampleSource<F> {
    /** The pair returned by the k-th call (counting from 0). */
    const At: nat -> StereoSample<F>
    /** How many samples have been drawn so far. */
    var calls: nat

    constructor (at: nat -> StereoSample<F>)
      ensures At == at && calls == 0
    {
      At := at;
      calls := 0;
    }

    /** The `n` samples that calls number `from`, `from + 1`, ... return, in
        draw order. */
    function Drawn(from: nat, n: nat): (ss: seq<StereoSample<F>>)
      ensures |ss| == n
      ensures forall k :: 0 <= k < n ==> ss[k] == At(from + k)
    {
      seq(n, k requires 0 <= k < n => At(from + k))
    }

    /** Draws one sample: one graph tick. */
    method Next() returns (s: StereoSample<F>)
      modifies this
      ensures s == At(old(calls))
      ensures calls == old(calls) + 1
    {
      s := At(calls);
      calls := calls + 1;
    }
  }

  /** Drawing one more sample extends the converted draw log by that
      sample, converted. */
  lemma {:induction false} ConvertedSnoc<F, T>(src: SampleSource<F>, from: nat, n: nat, toOutput: F -> T)
    ensures ConvertAll(src.Drawn(from, n + 1), toOutput)
         == ConvertAll(src.Drawn(from, n), toOutput) + [Convert(src.At(from + n), toOutput)]
  {
    var longer := ConvertAll(src.Drawn(from, n + 1), toOutput);
    var shorter := ConvertAll(src.Drawn(from, n), toOutput);
    assert forall k :: 0 <= k < n ==> longer[k] == shorter[k];
  }

  /** Drawing `n` samples and then one more yields the same stream prefix as
      drawing `n + 1` at once. */
  lemma {:induction false} DrawnSnoc<F>(src: SampleSource<F>, from: nat, n: nat)
    ensures src.Drawn(from, n) + [src.At(from + n)] == src.Drawn(from, n + 1)
  {
    assert (src.Drawn(from, n) + [src.At(from + n)])[n] == src.Drawn(from, n + 1)[n];
  }
}
