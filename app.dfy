/** The application's two pieces of sequential logic: what the "Beep"
    button asks of the audio output in each playback state, and one round
    of the producer thread that tops up the sample queue from the signal
    graph.
 */
module App {
  import opened Samples
  import opened Ringbuf

  /** Capacity of the sample queue, in stereo samples. */
  const BUFFER_SIZE: nat := 256

  /** Playback state of the audio output. */
  datatype AudioOutputState = Init | Ready | Playing | Paused

  /** The call the Beep button makes on the audio output. */
  datatype Action = NoAction | Play | Pause

  /** The stream has been built and bound to the queue. */
  predicate IsSetUp(state: AudioOutputState)
  {
    state != Init
  }

  /** The stream is running. */
  predicate IsPlaying(state: AudioOutputState)
  {
    state == Playing
  }

  /** Beep dispatch: before setup nothing happens; afterwards the button
      toggles playback, pausing a playing stream and starting (or
      resuming) any other. */
  function BeepAction(state: AudioOutputState): (a: Action)
    ensures !IsSetUp(state) ==> a == NoAction
    ensures IsSetUp(state) && IsPlaying(state) ==> a == Pause
    ensures IsSetUp(state) && !IsPlaying(state) ==> a == Play
  {
    match state
    case Init => NoAction
    case Ready => Play
    case Playing => Pause
    case Paused => Play
  }

  /** One round of the producer thread's inner loop: while the queue holds
      fewer than BUFFER_SIZE samples, tick the graph once and push the
      result. The `unwrap` on each push is the assertion that the push
      found room. */
  method FillRound<F>(producer: BoundedQueue<StereoSample<F>>, net: SampleSource<F>)
    requires producer.Valid() && producer.capacity == BUFFER_SIZE
    modifies producer, net
    ensures producer.Valid() && |producer.items| == BUFFER_SIZE
    ensures net.calls == old(net.calls) + (BUFFER_SIZE - old(|producer.items|))
    ensures producer.items == old(producer.items) + net.Drawn(old(net.calls), BUFFER_SIZE - old(|producer.items|))
  {
    ghost var before := producer.items;
    ghost var first := net.calls;
    var len := producer.Len();
    while len < BUFFER_SIZE
      invariant producer.Valid() && producer.capacity == BUFFER_SIZE
      invariant len == |producer.items| && |before| <= len
      invariant net.calls == first + (len - |before|)
      invariant producer.items == before + net.Drawn(first, len - |before|)
      decreases BUFFER_SIZE - len
    {
      var res := net.Next();
      var r := producer.Push(res);
      assert r.Ok?;
      DrawnSnoc(net, first, len - |before|);
      len := producer.Len();
    }
  }
}
