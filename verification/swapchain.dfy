/**
 * The double-buffer swapchain of `swapchain/swapchain.c`: the renderer
 * acquires the draw buffer and requests a swap, the display side reads the
 * other buffer and performs the swap. Each function is one atomic step on
 * the three-field state; any interleaving of steps is a `Run`.
 */
module Swapchain {
  import opened Wrappers

  /** `SWAPCHAIN_BUFFER_COUNT`. */
  const BufferCount: bv32 := 2
  /** `SWAPCHAIN_BUFFER_MASK`. */
  const BufferMask: bv32 := BufferCount - 1

  /** `swapchain_t` without its buffers; a buffer is named by its index. */
  datatype State = State(drawIndex: bv32, drawBufferAvailable: bool, swapRequested: bool)

  /** Whether `i` names one of the two buffers. */
  predicate IsBuffer(i: bv32)
  {
    i == 0 || i == 1
  }

  /** The state's draw index names a buffer. */
  predicate Valid(s: State)
  {
    IsBuffer(s.drawIndex)
  }

  /** The static initialiser: buffer 0 is free for drawing and no swap is pending. */
  function Init(): (r: State)
    ensures Valid(r) && r.drawIndex == 0
    ensures r.drawBufferAvailable && !r.swapRequested
    ensures AcquireDraw(r).1 == Some(0)
  {
    State(0, true, false)
  }

  /**
   * `swapchain_acquire_draw_image`: the draw buffer, taken, if it is
   * available, and `NULL` with nothing changed otherwise.
   */
  function AcquireDraw(s: State): (r: (State, Option<bv32>))
    ensures r.1.Some? <==> s.drawBufferAvailable
    ensures r.1.None? ==> r.0 == s
    ensures r.1.Some? ==> r.1.value == s.drawIndex && !r.0.drawBufferAvailable
    ensures r.0.drawIndex == s.drawIndex && r.0.swapRequested == s.swapRequested
  {
    if !s.drawBufferAvailable then (s, None)
    else (s.(drawBufferAvailable := false), Some(s.drawIndex))
  }

  /** `swapchain_acquire_display_image`: the buffer that is not being drawn. */
  function DisplayIndex(s: State): (r: bv32)
    ensures IsBuffer(r)
    ensures r != s.drawIndex
    ensures Valid(s) ==> IsBuffer(s.drawIndex) && r == 1 - s.drawIndex
  {
    (s.drawIndex + 1) & BufferMask
  }

  /** `swapchain_request_swap`: only the request flag changes. */
  function RequestSwap(s: State): (r: State)
    ensures r.swapRequested
    ensures r.drawIndex == s.drawIndex && r.drawBufferAvailable == s.drawBufferAvailable
  {
    s.(swapRequested := true)
  }

  /**
   * `swapchain_swap_buffers`: nothing without a request; with one, the
   * display buffer becomes the draw buffer, available again, and the
   * request is consumed.
   */
  function SwapBuffers(s: State): (r: State)
    ensures !s.swapRequested ==> r == s
    ensures s.swapRequested ==> r.drawIndex == DisplayIndex(s) && r.drawIndex != s.drawIndex
    ensures s.swapRequested ==> r.drawBufferAvailable && !r.swapRequested
  {
    if !s.swapRequested then s
    else s.(drawIndex := (s.drawIndex + 1) & BufferMask, swapRequested := false, drawBufferAvailable := true)
  }

  /** One atomic call into the swapchain. */
  datatype Op = Acquire | AcquireDisplay | Request | Swap

  /** The state after one call; acquiring the display image reads only. */
  function Step(s: State, op: Op): (r: State)
    ensures Valid(s) ==> Valid(r)
  {
    match op
    case Acquire => AcquireDraw(s).0
    case AcquireDisplay => s
    case Request => RequestSwap(s)
    case Swap => SwapBuffers(s)
  }

  /** The state after a sequence of calls, in order. */
  function Run(s: State, ops: seq<Op>): State
  {
    if ops == [] then s else Step(Run(s, ops[..|ops| - 1]), ops[|ops| - 1])
  }

  /** Whether call `i` of `ops`, run from `s`, is a swap that takes effect. */
  predicate SwapTakesEffect(s: State, ops: seq<Op>, i: nat)
    requires i < |ops|
  {
    ops[i] == Swap && Run(s, ops[..i]).swapRequested
  }

  /** Whether the draw buffer stays taken before each of the first `i + 1` calls of `ops`. */
  predicate TakenUntil(s: State, ops: seq<Op>, i: nat)
    requires i < |ops|
  {
    forall j :: 0 <= j <= i ==> !Run(s, ops[..j]).drawBufferAvailable
  }

  /** Every reachable state names a buffer to draw into. */
  lemma {:induction false} RunValid(s: State, ops: seq<Op>)
    requires Valid(s)
    ensures Valid(Run(s, ops))
    decreases |ops|
  {
    if ops != [] {
      RunValid(s, ops[..|ops| - 1]);
    }
  }

  /** A step changes the draw index only when it is a requested swap. */
  lemma StepDrawIndex(s: State, op: Op)
    ensures Step(s, op).drawIndex != s.drawIndex <==> op == Swap && s.swapRequested
  {
  }

  /** Over any interleaving, the draw index changes only through a swap that takes effect. */
  lemma {:induction false} DrawIndexOnlyBySwap(s: State, ops: seq<Op>)
    requires Run(s, ops).drawIndex != s.drawIndex
    ensures exists i :: 0 <= i < |ops| && SwapTakesEffect(s, ops, i)
    decreases |ops|
  {
    var n := |ops| - 1;
    var prefix := ops[..n];
    if Run(s, prefix).drawIndex != s.drawIndex {
      DrawIndexOnlyBySwap(s, prefix);
      var i :| 0 <= i < |prefix| && SwapTakesEffect(s, prefix, i);
      assert ops[..i] == prefix[..i];
      assert SwapTakesEffect(s, ops, i);
    } else {
      StepDrawIndex(Run(s, prefix), ops[n]);
      assert SwapTakesEffect(s, ops, n);
    }
  }

  /**
   * Once the draw buffer is taken, it becomes available again only through
   * a swap that takes effect: up to the first such swap the buffer stays
   * taken, so every acquire in between fails.
   */
  lemma {:induction false} AvailableOnlyBySwap(s: State, ops: seq<Op>)
    requires !s.drawBufferAvailable && Run(s, ops).drawBufferAvailable
    ensures exists i :: 0 <= i < |ops| && SwapTakesEffect(s, ops, i) && TakenUntil(s, ops, i)
    decreases |ops|
  {
    var n := |ops| - 1;
    if m :| 0 < m <= n && Run(s, ops[..m]).drawBufferAvailable {
      // The buffer came back earlier: the first swap lies within `ops[..m]`.
      var prefix := ops[..m];
      AvailableOnlyBySwap(s, prefix);
      var i :| 0 <= i < m && SwapTakesEffect(s, prefix, i) && TakenUntil(s, prefix, i);
      forall j | 0 <= j <= i ensures !Run(s, ops[..j]).drawBufferAvailable {
        assert prefix[..j] == ops[..j];
      }
      assert prefix[..i] == ops[..i];
      assert SwapTakesEffect(s, ops, i) && TakenUntil(s, ops, i);
    } else {
      // Taken after every proper prefix: the last call is the swap.
      forall j | 0 <= j <= n ensures !Run(s, ops[..j]).drawBufferAvailable {
        if j == 0 {
          assert ops[..0] == [];
        }
      }
      assert SwapTakesEffect(s, ops, n) && TakenUntil(s, ops, n);
    }
  }

  /**
   * Between a successful acquire and the renderer's request, no swap can
   * take effect: whatever the display side does, the renderer's target
   * stays put, stays taken, and is never the display buffer.
   */
  lemma {:induction false} TargetStableUntilRequest(s: State, ops: seq<Op>)
    requires Valid(s) && !s.drawBufferAvailable && !s.swapRequested
    requires forall i :: 0 <= i < |ops| ==> ops[i] != Request
    ensures Run(s, ops) == s
    ensures DisplayIndex(Run(s, ops)) != s.drawIndex
    decreases |ops|
  {
    if ops != [] {
      var n := |ops| - 1;
      TargetStableUntilRequest(s, ops[..n]);
    }
  }

  /** A successful acquire is followed by failing ones until the next swap. */
  lemma AcquireTwice(s: State)
    ensures AcquireDraw(AcquireDraw(s).0).1.None?
  {
  }
}
