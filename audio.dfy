/** The frame writer of the hardware output callback (`write_data`).

    The output buffer is cut into consecutive frames of `channels` slots, the
    last one possibly shorter (`chunks_mut`). Each frame draws exactly one
    stereo sample; its even channels get the left value and its odd channels
    the right value.
 */
module Audio {
  import opened Samples

  function Min(a: nat, b: nat): (m: nat)
    ensures m <= a && m <= b && (m == a || m == b)
  {
    if a <= b then a else b
  }

  // The three lemmas below each state one nonlinear fact about the chunk
  // arithmetic (frame k starts at k * channels). The solver does not find
  // these facts on its own inside the larger proofs, so those proofs call
  // the lemmas with the instances they need.

  /** Multiplication by a non-negative factor is monotone. */
  lemma {:induction false} MulLe(a: int, b: int, c: nat)
    requires a <= b
    ensures a * c <= b * c
  {
  }

  /** Cancelling a non-negative factor from a strict inequality. */
  lemma {:induction false} MulLtCancel(a: int, b: int, c: nat)
    requires a * c < b * c
    ensures a < b
  {
  }

  /** (k + 1) * c, distributed. */
  lemma {:induction false} MulSucc(k: int, c: int)
    ensures (k + 1) * c == k * c + c
  {
  }

  /** Number of frames `chunks_mut(channels)` cuts a buffer of `len` slots
      into: one per chunk of `channels` slots, the trailing partial chunk
      included. */
  function FrameCount(len: nat, channels: nat): (n: nat)
    requires channels > 0
    ensures n == 0 <==> len == 0
    decreases len
  {
    if len == 0 then 0 else 1 + FrameCount(len - Min(channels, len), channels)
  }

  /** The frames cover the buffer, and the last one is not empty: n is the
      least count with len <= n * channels. */
  lemma {:induction false} FrameCountBounds(len: nat, channels: nat)
    requires channels > 0
    ensures len <= FrameCount(len, channels) * channels
    ensures (FrameCount(len, channels) - 1) * channels < len || len == 0
    decreases len
  {
    if len > 0 {
      var w := Min(channels, len);
      var m := FrameCount(len - w, channels);
      FrameCountBounds(len - w, channels);
      MulSucc(m, channels);
      MulSucc(m as int - 1, channels);
    }
  }

  /** The ceiling characterisation determines the frame count. */
  lemma {:induction false} FrameCountUnique(len: nat, channels: nat, k: nat)
    requires channels > 0
    requires len <= k * channels
    requires (k - 1) * channels < len
    ensures FrameCount(len, channels) == k
  {
    var n := FrameCount(len, channels);
    FrameCountBounds(len, channels);
    if n == 0 {
      MulLtCancel(k - 1, 0, channels);
    } else {
      MulLtCancel(n - 1, k, channels);
      MulLtCancel(k - 1, n, channels);
    }
  }

  /** `FrameCount` is the ceiling of len / channels, so an empty buffer has
      no frame and a trailing partial chunk counts as one. */
  lemma {:induction false} FrameCountIsCeiling(len: nat, channels: nat)
    requires channels > 0
    ensures FrameCount(len, channels) == (len + channels - 1) / channels
  {
    var q := (len + channels - 1) / channels;
    var r := (len + channels - 1) % channels;
    assert len + channels - 1 == q * channels + r;
    MulSucc(q - 1, channels);
    FrameCountUnique(len, channels, q);
  }

  /** The value written into channel `channel` of a frame: left on even
      channel indices, right on odd ones (`channel & 1 == 0`). */
  function ChannelValue<T>(s: StereoSample<T>, channel: nat): (v: T)
    ensures v == s.left || v == s.right
  {
    if channel % 2 == 0 then s.left else s.right
  }

  /** One frame of `width` slots filled from sample `s`. */
  function FrameSlots<T>(s: StereoSample<T>, width: nat): (slots: seq<T>)
    ensures |slots| == width
  {
    seq(width, c requires 0 <= c < width => ChannelValue(s, c))
  }

  /** Reference definition of the buffer contents, chunk by chunk as
      `chunks_mut` visits them: the first frame (at most `channels` slots)
      comes from the first sample drawn, the rest of the buffer from the
      remaining samples. */
  function Render<T>(samples: seq<StereoSample<T>>, len: nat, channels: nat): (out: seq<T>)
    requires channels > 0
    requires |samples| == FrameCount(len, channels)
    ensures |out| == len
    decreases len
  {
    if len == 0 then []
    else
      var width := Min(channels, len);
      FrameSlots(samples[0], width) + Render(samples[1..], len - width, channels)
  }

  /** Appending one more frame of width 0 < w <= channels after k full
      frames appends that frame's slots to the rendered buffer. */
  lemma {:induction false} RenderSnoc<T>(samples: seq<StereoSample<T>>, s: StereoSample<T>, channels: nat, w: nat)
    requires 0 < w <= channels
    requires |samples| == FrameCount(|samples| * channels, channels)
    requires |samples| + 1 == FrameCount(|samples| * channels + w, channels)
    ensures Render(samples + [s], |samples| * channels + w, channels)
         == Render(samples, |samples| * channels, channels) + FrameSlots(s, w)
  {
    var k := |samples|;
    if k == 0 {
      assert samples + [s] == [s];
    } else {
      var rest := samples[1..];
      MulSucc(k - 1, channels);
      assert (samples + [s])[1..] == rest + [s];
      RenderSnoc(rest, s, channels, w);
    }
  }

  /** One step of the frame writer: writing the next frame after the
      rendered prefix extends the rendering by one sample. */
  lemma {:induction false} FrameAppended<T>(drawn: seq<StereoSample<T>>, s: StereoSample<T>, channels: nat,
                                            start: nat, end: nat, len: nat, prefix: seq<T>, frame: seq<T>)
    requires channels > 0
    requires start < len && start == |drawn| * channels
    requires end == start + Min(channels, len - start)
    requires |drawn| == FrameCount(start, channels)
    requires prefix == Render(drawn, start, channels)
    requires frame == FrameSlots(s, end - start)
    ensures |drawn| + 1 == FrameCount(end, channels)
    ensures end < len ==> end == |drawn + [s]| * channels
    ensures prefix + frame == Render(drawn + [s], end, channels)
  {
    MulSucc(|drawn|, channels);
    FrameCountUnique(end, channels, |drawn| + 1);
    RenderSnoc(drawn, s, channels, end - start);
  }

  /** Channel c of frame q holds the value sample q gives that channel. */
  lemma {:induction false} RenderAtFrame<T>(samples: seq<StereoSample<T>>, len: nat, channels: nat, q: nat, c: nat)
    requires channels > 0
    requires |samples| == FrameCount(len, channels)
    requires c < channels
    requires q * channels + c < len
    ensures q < |samples|
    ensures Render(samples, len, channels)[q * channels + c] == ChannelValue(samples[q], c)
    decreases q
  {
    var width := Min(channels, len);
    if q == 0 {
      assert q * channels == 0;
    } else {
      MulSucc(q - 1, channels);
      assert width == channels;
      RenderAtFrame(samples[1..], len - channels, channels, q - 1, c);
    }
  }

  /** The index law: slot `i` holds the left value of sample i / channels
      when i % channels is even, and its right value otherwise. */
  lemma {:induction false} RenderAt<T>(samples: seq<StereoSample<T>>, len: nat, channels: nat, i: nat)
    requires channels > 0
    requires |samples| == FrameCount(len, channels)
    requires i < len
    ensures i / channels < |samples|
    ensures Render(samples, len, channels)[i] == ChannelValue(samples[i / channels], i % channels)
  {
    var q, c := i / channels, i % channels;
    assert i == q * channels + c;
    RenderAtFrame(samples, len, channels, q, c);
  }

  /** Frame k, slots k·channels up to min((k+1)·channels, len), is filled
      from the k-th sample drawn. */
  lemma {:induction false} RenderFrame<T>(samples: seq<StereoSample<T>>, len: nat, channels: nat, k: nat)
    requires channels > 0
    requires |samples| == FrameCount(len, channels)
    requires k < |samples|
    ensures k * channels < len
    ensures Render(samples, len, channels)[k * channels .. Min(k * channels + channels, len)]
         == FrameSlots(samples[k], Min(k * channels + channels, len) - k * channels)
  {
    FrameCountBounds(len, channels);
    MulLe(k, |samples| - 1, channels);
    var lo, hi := k * channels, Min(k * channels + channels, len);
    var out := Render(samples, len, channels);
    forall c | 0 <= c < hi - lo
      ensures out[lo .. hi][c] == FrameSlots(samples[k], hi - lo)[c]
    {
      RenderAtFrame(samples, len, channels, k, c);
    }
  }

  /** With one channel every slot receives the left value of its own
      sample. */
  lemma {:induction false} MonoLayout<T>(samples: seq<StereoSample<T>>, len: nat)
    requires |samples| == FrameCount(len, 1)
    ensures |samples| == len
    ensures forall i :: 0 <= i < len ==> Render(samples, len, 1)[i] == samples[i].left
  {
    FrameCountIsCeiling(len, 1);
    forall i | 0 <= i < len
      ensures Render(samples, len, 1)[i] == samples[i].left
    {
      RenderAtFrame(samples, len, 1, i, 0);
    }
  }

  /** With two channels the buffer reads L0 R0 L1 R1 ... */
  lemma {:induction false} StereoLayout<T>(samples: seq<StereoSample<T>>, len: nat)
    requires |samples| == FrameCount(len, 2)
    ensures forall k :: 0 <= k < |samples| && 2 * k < len ==> Render(samples, len, 2)[2 * k] == samples[k].left
    ensures forall k :: 0 <= k < |samples| && 2 * k + 1 < len ==> Render(samples, len, 2)[2 * k + 1] == samples[k].right
  {
    forall k | 0 <= k < |samples| && 2 * k < len
      ensures Render(samples, len, 2)[2 * k] == samples[k].left
    {
      RenderAtFrame(samples, len, 2, k, 0);
    }
    forall k | 0 <= k < |samples| && 2 * k + 1 < len
      ensures Render(samples, len, 2)[2 * k + 1] == samples[k].right
    {
      RenderAtFrame(samples, len, 2, k, 1);
    }
  }

  /** The inner loop of `write_data` over one chunk `output[start..end]`
      (`frame.iter_mut().enumerate()`): even channels get `left`, odd ones
      `right`. The ghost `writes` counts the assignments each slot of the
      whole buffer has received. */
  method WriteFrame<T>(output: array<T>, start: nat, end: nat, left: T, right: T, ghost writes: seq<nat>)
      returns (ghost writes': seq<nat>)
    requires start <= end <= output.Length
    requires |writes| == output.Length
    modifies output
    ensures output[..start] == old(output[..start])
    ensures output[end..] == old(output[end..])
    ensures output[start..end] == FrameSlots(StereoSample(left, right), end - start)
    ensures |writes'| == |writes|
    ensures forall j :: 0 <= j < |writes| ==> writes'[j] == if start <= j < end then writes[j] + 1 else writes[j]
  {
    writes' := writes;
    var channel := 0;
    while start + channel < end
      invariant start + channel <= end
      invariant output[..start] == old(output[..start])
      invariant output[end..] == old(output[end..])
      invariant output[start .. start + channel] == FrameSlots(StereoSample(left, right), channel)
      invariant |writes'| == |writes|
      invariant forall j :: 0 <= j < |writes| ==> writes'[j] == if start <= j < start + channel then writes[j] + 1 else writes[j]
      decreases end - start - channel
    {
      if channel % 2 == 0 {
        output[start + channel] := left;
      } else {
        output[start + channel] := right;
      }
      writes' := writes'[start + channel := writes'[start + channel] + 1];
      channel := channel + 1;
    }
  }

  /** `write_data`: fills `output` frame by frame, drawing one sample from
      `nextSample` per frame and converting it with `toOutput`. The ghost
      `writes` counts the assignments each slot received. */
  method WriteData<F, T>(output: array<T>, channels: nat, nextSample: SampleSource<F>, toOutput: F -> T)
      returns (ghost writes: seq<nat>)
    requires channels > 0
    modifies output, nextSample
    ensures nextSample.calls == old(nextSample.calls) + FrameCount(output.Length, channels)
    ensures output[..] == Render(ConvertAll(nextSample.Drawn(old(nextSample.calls), FrameCount(output.Length, channels)), toOutput),
                                 output.Length, channels)
    ensures |writes| == output.Length && forall i :: 0 <= i < output.Length ==> writes[i] == 1
  {
    ghost var first := nextSample.calls;
    ghost var drawn: seq<StereoSample<T>> := [];
    writes := seq(output.Length, _ => 0);
    var start := 0;
    while start < output.Length
      invariant start <= output.Length
      invariant |drawn| == FrameCount(start, channels)
      invariant start < output.Length ==> start == |drawn| * channels
      invariant nextSample.calls == first + |drawn|
      invariant drawn == ConvertAll(nextSample.Drawn(first, |drawn|), toOutput)
      invariant output[..start] == Render(drawn, start, channels)
      invariant |writes| == output.Length
      invariant forall j :: 0 <= j < output.Length ==> writes[j] == if j < start then 1 else 0
      decreases output.Length - start
    {
      var end := start + Min(channels, output.Length - start);
      var sample := nextSample.Next();
      var left := toOutput(sample.left);
      var right := toOutput(sample.right);
      assert Convert(nextSample.At(first + |drawn|), toOutput) == StereoSample(left, right);
      ConvertedSnoc(nextSample, first, |drawn|, toOutput);
      writes := WriteFrame(output, start, end, left, right, writes);
      assert output[..end] == output[..start] + output[start..end];
      FrameAppended(drawn, StereoSample(left, right), channels, start, end, output.Length, output[..start], output[start..end]);
      drawn := drawn + [StereoSample(left, right)];
      start := end;
    }
    assert output[..] == output[..start];
  }
}
