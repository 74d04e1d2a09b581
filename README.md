# Realtime sample pipeline of a small synthesizer, in Dafny

This project models the verifiable core of a synthesizer that streams stereo
samples from a signal-processing graph to an audio output device:

- **the frame writer** (`write_data`), which the hardware callback calls
  with an interleaved output buffer. The writer cuts the buffer into frames
  of `channels` slots with `chunks_mut`, so the last frame may be shorter.
  It draws exactly one stereo sample per frame. It writes the left value
  into the frame's even channels and the right value into its odd channels;
- **the Beep dispatch**: the action the "Beep" button asks of the audio
  output in each of the four playback states;
- **one fill round of the producer thread**: while the sample queue (a
  `StaticRb` ring buffer of capacity `BUFFER_SIZE` = 256) holds fewer than
  256 samples, tick the graph once and push the result, unwrapping the push.

Layout, one module per file:

- `samples.dfy` (`Samples`) has the `StereoSample` datatype and the class
  `SampleSource`. That class is the signal graph seen through `get_stereo`,
  or the `next_sample` closure wrapping it. It is an abstract stream: the
  k-th call returns `At(k)`, and `calls` counts the calls made so far. The
  graph's floating-point arithmetic is not modelled. The float type is a
  type parameter `F`.
- `audio.dfy` (`Audio`) holds `WriteData`, its inner per-frame loop
  `WriteFrame`, and the reference definition `Render`. `Render` builds the
  buffer chunk by chunk from the sequence of drawn samples. The file also
  has `FrameCount` (the number of chunks) and the lemmas about them. The
  output element type `T` is generic. The conversion
  `cpal::Sample::from(x as f32)` is an opaque parameter `toOutput: F -> T`.
- `ringbuf.dfy` (`Ringbuf`) is an abstract bounded FIFO standing for
  `StaticRb`: a `seq` of pending items and a fixed capacity.
- `app.dfy` (`App`) has `BUFFER_SIZE`, `AudioOutputState`, the Beep
  dispatch `BeepAction` and the fill round `FillRound`.

A few modelling notes:

- The parity test `channel & 1 == 0` is written `channel % 2 == 0`. The two
  agree on the non-negative `usize` channel index.
- Rust slices cannot change length, and Dafny arrays cannot either. So "the
  output buffer length is unchanged" holds by construction.
- The `unwrap` on `producer.push(res)` becomes `assert r.Ok?` in
  `FillRound`: the verifier proves that no push in a round finds the queue
  full.
- `src/audio.rs` in this version does not define `AudioOutput` or
  `AudioOutputState`, although `src/app.rs:28-29` imports them. The model
  declares the four-state enum in `App` and models only the dispatch over it.
- `write_data` does not pop from the sample queue and never substitutes
  silence: it calls its `next_sample` closure, which ticks the graph
  directly (src/audio.rs:27, 45). The model follows the code.

## Model

| member | source | states |
|---|---|---|
| Audio.WriteData | src/audio.rs:40-57 | Writes the whole buffer. The source is called exactly FrameCount(len, channels) times, once per chunk, the trailing partial chunk included. The buffer equals Render of the converted samples in draw order. Every slot is assigned exactly once (ghost write counts are all 1). Requires channels > 0, because `chunks_mut(0)` panics. |
| Audio.WriteFrame | src/audio.rs:49-55 | The inner loop over one chunk: slot `start + c` gets `left` when c is even and `right` when c is odd. Slots outside the chunk are unchanged, and each slot of the chunk is written once. |
| Audio.FrameCount | src/audio.rs:44 | The number of chunks is zero exactly when the buffer is empty, so an empty output draws no sample. |
| Audio.FrameCountBounds | src/audio.rs:44-45 | The chunks cover the buffer (len <= n * channels). The last chunk is not empty ((n - 1) * channels < len). |
| Audio.FrameCountUnique | src/audio.rs:44 | Any k with len <= k * channels and (k - 1) * channels < len is the chunk count. |
| Audio.FrameCountIsCeiling | src/audio.rs:44-45 | The chunk count, and so the number of next_sample calls, is ceil(len / channels) = (len + channels - 1) / channels. |
| Audio.ChannelValue | src/audio.rs:50-54 | The value a channel receives is one of its frame's two values: the left one when the channel index is even (`channel & 1 == 0`), the right one otherwise. |
| Audio.Render | src/audio.rs:44-55 | Reference definition of the written buffer: chunk by chunk, the k-th sample fills a chunk of min(channels, remaining) slots. The result has exactly len slots. This holds for every sample sequence with one sample per chunk, so the trailing partial chunk also draws exactly one sample. |
| Audio.RenderAt | src/audio.rs:44-54 | Index law: slot i holds the left value of sample i / channels when i % channels is even, and its right value otherwise. |
| Audio.RenderAtFrame | src/audio.rs:44-54 | Channel c of frame q (slot q * channels + c) exists only for q below the chunk count, and it holds ChannelValue(sample q, c). |
| Audio.RenderFrame | src/audio.rs:44-45 | Frame k, slots k * channels up to min((k + 1) * channels, len), starts inside the buffer and is filled entirely from the k-th sample drawn. |
| Audio.RenderSnoc | src/audio.rs:44-55 | Writing one more chunk of width 0 < w <= channels after k full chunks appends exactly that chunk's slots to the buffer written so far. |
| Audio.FrameAppended | src/audio.rs:44-55 | One step of the outer loop: after the chunk starting at k * channels, the chunk count and the rendered prefix both advance by one sample. |
| Audio.MonoLayout | src/audio.rs:50-54 | With one channel there are len samples, and slot i receives the left value of sample i. |
| Audio.StereoLayout | src/audio.rs:50-54 | With two channels the buffer reads L0 R0 L1 R1 ...: slot 2k is left of sample k, and slot 2k + 1 is right of sample k. |
| Samples.SampleSource.Next | src/audio.rs:45 | One call of `next_sample` (`get_stereo`) returns the sample for the current call number and advances the count by exactly one. |
| Samples.ConvertedSnoc | src/audio.rs:45-47 | Drawing and converting one more sample extends the converted draw log by that sample. |
| Ringbuf.BoundedQueue.constructor | src/app.rs:79 | A new queue has the given capacity and is empty. |
| Ringbuf.BoundedQueue.Len | src/app.rs:121 | `len` is the number of pending items and never exceeds the capacity. |
| Ringbuf.BoundedQueue.Push | src/app.rs:123 | With room, the value goes at the back and the result is Ok. When full, the queue is unchanged and the value comes back in Err. Capacity is never exceeded. |
| Ringbuf.BoundedQueue.Pop | src/app.rs:79-80 | The consumer half: never blocks. It returns the oldest item and removes it, or returns None on an empty queue. |
| Ringbuf.PushAfterPops | src/app.rs:121-123 | The producer saw `len < capacity`, and any number of consumer pops then ran before its `push`. The push still returns Ok and the queue stays within capacity. The queue then holds a suffix of its old contents, with j <= pops items removed from the front, in FIFO order, followed by the pushed value. |
| App.BeepAction | src/app.rs:195-200 | Total over the four states, with exactly one action each. Init does nothing. After setup the button toggles: Playing gets Pause; Ready and Paused get Play. |
| App.FillRound | src/app.rs:120-124 | One inner round against a queue of capacity BUFFER_SIZE = 256 (src/app.rs:77-80). Every `unwrap` succeeds, because no push finds the queue full. The graph is ticked exactly BUFFER_SIZE − len₀ times, and the queue ends with exactly BUFFER_SIZE items. The new contents are the old contents, untouched, followed by every computed sample in computation order, with no filtering. |

## Left out

- Device, host and stream construction, the sample-format dispatch and the
  `run` closure set-up (src/audio.rs:10-38, 59-71) are hardware I/O and calls
  into a foreign library.
- The f64 → f32 → T conversion is floating point. It is the opaque parameter
  `toOutput`.
- The fundsp `Net64` graph (`push`, `pipe`, `pipe_output`, `reset`,
  `get_stereo`) is opaque floating-point DSP. It appears only as the
  abstract stream `SampleSource`.
- The threads, the `Arc<Mutex<…>>` locking and the race between the two
  threads that lock the graph (src/app.rs:107-147) are concurrency. The
  infinite outer `loop` (src/app.rs:120) does not terminate. Only one inner
  round is modelled.
- App.FillRound: the consumer is assumed not to run during the round.
  `Ringbuf.PushAfterPops` proves that pops between a `len` check and the
  following `push` cannot make that push fail. The thread interleaving
  itself is not modelled.
- The internals of `ringbuf::StaticRb` belong to a foreign library. It is
  replaced by the abstract bounded FIFO `BoundedQueue`.
- The bodies of `AudioOutput::new`, `setup`, `play` and `pause`, and the
  state transitions they make, are not part of this version's sources.
  `BeepAction` returns the action chosen. It does not say what that action
  does to the state.
- The egui user interface, the printing of the state name
  (src/app.rs:186-194), the browser audio-unlock glue and the platform
  bootstrap in src/main.rs are UI and platform plumbing.
- Audio.WriteData: the index law is not restated in its own postcondition.
  The postcondition gives the buffer as `Render` of the drawn samples, and
  `RenderAt` gives the index law for `Render`. Together they give the law
  for the written buffer.
