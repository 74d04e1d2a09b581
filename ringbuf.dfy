/** A bounded first-in first-out queue standing for the `StaticRb` ring
    buffer that carries stereo samples from the producer thread to the
    audio callback. Only its observable behaviour is modelled: a fixed
    capacity, `len`, a `push` that hands the value back when the queue is
    full, and a `pop` that never blocks.
 */
module Ringbuf {

  datatype Option<T> = None | Some(value: T)

  /** What `push` returns: `Ok` when the value was stored, `Err` with the
      value handed back when the queue was full. */
  datatype PushResult<T> = Ok | Err(rejected: T)

  class BoundedQueue<T> {
    /** Pending items, oldest first. */
    var items: seq<T>
    /** Fixed at construction, never resized. */
    const capacity: nat

    /** The writer never exceeds capacity. */
    ghost predicate Valid()
      reads this
    {
      |items| <= capacity
    }

    constructor (capacity: nat)
      ensures Valid()
      ensures this.capacity == capacity && items == []
    {
      this.capacity := capacity;
      items := [];
    }

    /** Number of pending items (`len`). */
    method Len() returns (n: nat)
      requires Valid()
      ensures n == |items| && n <= capacity
    {
      n := |items|;
    }

    /** Appends `x` at the back when there is room; otherwise leaves the
        queue as it was and gives `x` back. */
    method Push(x: T) returns (r: PushResult<T>)
      requires Valid()
      modifies this
      ensures Valid()
      ensures old(|items|) < capacity ==> r == Ok && items == old(items) + [x]
      ensures old(|items|) >= capacity ==> r == Err(x) && items == old(items)
    {
      if |items| < capacity {
        items := items + [x];
        r := Ok;
      } else {
        r := Err(x);
      }
    }

    /** Removes and returns the oldest item, or `None` at once when the
        queue is empty. */
    method Pop() returns (x: Option<T>)
      requires Valid()
      modifies this
      ensures Valid()
      ensures old(items) == [] ==> x == None && items == []
      ensures old(items) != [] ==> x == Some(old(items)[0]) && items == old(items)[1..]
    {
      if items == [] {
        x := None;
      } else {
        x := Some(items[0]);
        items := items[1..];
      }
    }
  }

  /** The producer saw room (`len < capacity`), and then the consumer ran
      `pops` pops before the producer's `push`. Pops never add items, so the
      push still finds room: it returns `Ok`. The queue then holds what the
      pops left of the old contents, oldest first, followed by the value. */
  method PushAfterPops<T>(q: BoundedQueue<T>, pops: nat, x: T) returns (r: PushResult<T>)
    requires q.Valid() && |q.items| < q.capacity
    modifies q
    ensures q.Valid() && r == Ok
    ensures |q.items| <= old(|q.items|) + 1
    ensures |q.items| > 0 && q.items[|q.items| - 1] == x
    ensures exists j :: 0 <= j <= pops && j <= |old(q.items)| && q.items == old(q.items)[j..] + [x]
  {
    ghost var before := q.items;
    ghost var j := 0;
    var i := 0;
    while i < pops
      invariant i <= pops && q.Valid()
      invariant j <= i && j <= |before| && q.items == before[j..]
      decreases pops - i
    {
      ghost var wasEmpty := q.items == [];
      var _ := q.Pop();
      if !wasEmpty {
        j := j + 1;
      }
      i := i + 1;
    }
    r := q.Push(x);
    assert q.items == before[j..] + [x];
  }
}
