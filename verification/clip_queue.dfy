/**
 * The fixed-capacity ring buffer the clipper keeps its pending triangles in
 * (`pgl_clip_queue_t` in `pgl/pgl.c`).
 *
 * `front` is the next slot to pop and `back` the next slot to push; one
 * slot is always left free, so the queue holds at most `Capacity - 1`
 * triangles. Pushing onto a full queue is silently dropped.
 */
module ClipQueue {
  import opened Wrappers

  /** `PGL_CLIP_QUEUE_CAPACITY`. */
  const Capacity: nat := 16

  /** The slots of the ring and its two cursors. */
  datatype Queue<T> = Queue(slots: seq<T>, front: nat, back: nat)

  /** The ring has its full storage and both cursors index a slot. */
  predicate Valid<T>(q: Queue<T>)
  {
    |q.slots| == Capacity && q.front < Capacity && q.back < Capacity
  }

  /** The queued elements, oldest first: the slots from `front` up to `back`, wrapping round. */
  function Contents<T>(q: Queue<T>): seq<T>
    requires Valid(q)
  {
    if q.front <= q.back then q.slots[q.front..q.back]
    else q.slots[q.front..] + q.slots[..q.back]
  }

  /** `pgl_clip_queue_init`: both cursors at slot 0; the storage keeps whatever it held. */
  function Init<T>(storage: seq<T>): (q: Queue<T>)
    requires |storage| == Capacity
    ensures Valid(q)
    ensures Contents(q) == []
  {
    Queue(storage, 0, 0)
  }

  /** `pgl_clip_queue_is_empty`. */
  function IsEmpty<T>(q: Queue<T>): (r: bool)
    requires Valid(q)
    ensures r <==> Contents(q) == []
  {
    q.front == q.back
  }

  /** `pgl_clip_queue_is_full`: the slot after `back` is `front`. */
  function IsFull<T>(q: Queue<T>): (r: bool)
    requires Valid(q)
    ensures r <==> |Contents(q)| == Capacity - 1
  {
    (q.back + 1) % Capacity == q.front
  }

  /** `pgl_clip_queue_length`. */
  function Length<T>(q: Queue<T>): (r: nat)
    requires Valid(q)
    ensures r == |Contents(q)|
    ensures r < Capacity
  {
    if q.back >= q.front then q.back - q.front
    else (q.back + Capacity) - q.front
  }

  /** `pgl_clip_queue_push`: appends `x`, or does nothing when the queue is full. */
  function Push<T>(q: Queue<T>, x: T): (r: Queue<T>)
    requires Valid(q)
    ensures Valid(r)
    ensures IsFull(q) ==> r == q
    ensures !IsFull(q) ==> Contents(r) == Contents(q) + [x]
  {
    if IsFull(q) then q
    else
      var r := Queue(q.slots[q.back := x], q.front, (q.back + 1) % Capacity);
      PushContents(q, x, r);
      r
  }

  /** Writing the slot at `back` and advancing it appends to the contents. */
  lemma PushContents<T>(q: Queue<T>, x: T, r: Queue<T>)
    requires Valid(q) && |Contents(q)| < Capacity - 1
    requires r == Queue(q.slots[q.back := x], q.front, (q.back + 1) % Capacity)
    ensures Valid(r)
    ensures Contents(r) == Contents(q) + [x]
  {
    if q.back + 1 == Capacity {
      assert r.back == 0;
      assert Contents(r) == r.slots[q.front..];
    }
  }

  /**
   * `pgl_clip_queue_pop`: the oldest element and the queue without it, or
   * `None` and the queue unchanged when it is empty.
   */
  function Pop<T>(q: Queue<T>): (r: (Option<T>, Queue<T>))
    requires Valid(q)
    ensures Valid(r.1)
    ensures IsEmpty(q) ==> r == (None, q)
    ensures !IsEmpty(q) ==> r.0 == Some(Contents(q)[0]) && Contents(r.1) == Contents(q)[1..]
    ensures r.1.slots == q.slots
  {
    if IsEmpty(q) then (None, q)
    else (Some(q.slots[q.front]), Queue(q.slots, (q.front + 1) % Capacity, q.back))
  }

  /** A queue operation as the clipper issues them. */
  datatype Op<T> = PushOp(item: T) | PopOp

  /** The queue after applying `ops` in order. */
  function Run<T>(q: Queue<T>, ops: seq<Op<T>>): (r: Queue<T>)
    requires Valid(q)
    ensures Valid(r)
    decreases |ops|
  {
    if ops == [] then q
    else
      var next := match ops[0]
        case PushOp(x) => Push(q, x)
        case PopOp => Pop(q).1;
      Run(next, ops[1..])
  }

  /** The number of push operations in `ops`. */
  function Pushes<T>(ops: seq<Op<T>>): nat
  {
    if ops == [] then 0 else (if ops[0].PushOp? then 1 else 0) + Pushes(ops[1..])
  }

  /** Whether no operation of `ops`, run from `q`, pushes onto a full queue or pops an empty one. */
  predicate Effective<T>(q: Queue<T>, ops: seq<Op<T>>)
    requires Valid(q)
    decreases |ops|
  {
    ops != [] ==>
      match ops[0]
      case PushOp(x) => !IsFull(q) && Effective(Push(q, x), ops[1..])
      case PopOp => !IsEmpty(q) && Effective(Pop(q).1, ops[1..])
  }

  /**
   * As long as no push is dropped and no pop finds the queue empty, the
   * length is the number of pushes minus the number of pops.
   */
  lemma {:induction false} LengthCountsOps<T>(q: Queue<T>, ops: seq<Op<T>>)
    requires Valid(q) && Effective(q, ops)
    ensures Length(Run(q, ops)) + (|ops| - Pushes(ops)) == Length(q) + Pushes(ops)
    decreases |ops|
  {
    if ops != [] {
      match ops[0]
      case PushOp(x) =>
        LengthCountsOps(Push(q, x), ops[1..]);
      case PopOp =>
        LengthCountsOps(Pop(q).1, ops[1..]);
    }
  }
}
