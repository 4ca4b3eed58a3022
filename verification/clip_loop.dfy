/**
 * The loops of `pgl_clip` in `pgl/pgl.c`: the queue of pending triangles,
 * the caller's 16-slot `subtriangles` array with its `last_index`, and the
 * re-queueing of one plane's outputs as the next plane's inputs. `Clip`
 * is proved to compute `Clipper.ClipReference`.
 */
module ClipLoop {
  import opened Wrappers
  import ClipQueue
  import opened Clipper

  /** Reversing a sequence with one more element in front appends that element. */
  lemma ReverseCons<T>(x: T, ys: seq<T>)
    ensures Reverse([x] + ys) == Reverse(ys) + [x]
  {
    assert ([x] + ys)[1..] == ys;
  }

  /**
   * Pushing one more output, taken from further down the array, adds it
   * behind the others unless the queue already holds `Capacity - 1`.
   */
  lemma RequeueStep<T>(x: T, ys: seq<T>)
    ensures |ys| < ClipQueue.Capacity - 1 ==> Requeue([x] + ys) == Requeue(ys) + [x]
    ensures |ys| >= ClipQueue.Capacity - 1 ==> Requeue([x] + ys) == Requeue(ys)
  {
    ReverseCons(x, ys);
    var rev := Reverse(ys);
    if |ys| >= ClipQueue.Capacity - 1 {
      assert (rev + [x])[..ClipQueue.Capacity - 1] == rev[..ClipQueue.Capacity - 1];
    }
  }

  /** Pushing `out[j]` extends the re-queued outputs from `j + 1` on to those from `j` on. */
  lemma RequeuePush(q: ClipQueue.Queue<Triangle>, out: seq<Triangle>, j: nat)
    requires ClipQueue.Valid(q) && j < |out|
    requires ClipQueue.Contents(q) == Requeue(out[j + 1..])
    ensures ClipQueue.Contents(ClipQueue.Push(q, out[j])) == Requeue(out[j..])
  {
    RequeueStep(out[j], out[j + 1..]);
    assert out[j..] == [out[j]] + out[j + 1..];
  }

  /** Concatenation is associative. */
  lemma AppendAssoc<T>(a: seq<T>, b: seq<T>, c: seq<T>)
    ensures (a + b) + c == a + (b + c)
  {
  }

  /** Popping the oldest queued triangle splits off its outputs from the stage's. */
  lemma PopStage(dot: DotOracle, q: ClipQueue.Queue<Triangle>, p: Plane, build: Build)
    requires ClipQueue.Valid(q) && !ClipQueue.IsEmpty(q)
    ensures ClipStage(dot, ClipQueue.Contents(q), p, build)
         == ClipTriangle(dot, ClipQueue.Pop(q).0.value, p, build)
          + ClipStage(dot, ClipQueue.Contents(ClipQueue.Pop(q).1), p, build)
  {
  }

  /**
   * `subtriangles[++last_index] = piece` for each of `pieces`; `ok` is false
   * when a write would land past the last slot.
   */
  method Emit(buffer: seq<Triangle>, lastIndex: int, pieces: seq<Triangle>)
    returns (ok: bool, buffer': seq<Triangle>, lastIndex': int)
    requires |buffer| == ClipQueue.Capacity && -1 <= lastIndex < ClipQueue.Capacity
    ensures |buffer'| == ClipQueue.Capacity && -1 <= lastIndex' < ClipQueue.Capacity
    ensures ok <==> lastIndex + |pieces| < ClipQueue.Capacity
    ensures ok ==> lastIndex' == lastIndex + |pieces|
    ensures ok ==> buffer'[..lastIndex' + 1] == buffer[..lastIndex + 1] + pieces
  {
    buffer', lastIndex' := buffer, lastIndex;
    var j := 0;
    while j < |pieces|
      invariant 0 <= j <= |pieces|
      invariant |buffer'| == ClipQueue.Capacity && lastIndex' == lastIndex + j
      invariant lastIndex' < ClipQueue.Capacity
      invariant buffer'[..lastIndex' + 1] == buffer[..lastIndex + 1] + pieces[..j]
    {
      if lastIndex' + 1 >= ClipQueue.Capacity {
        return false, buffer', lastIndex';
      }
      assert buffer'[lastIndex' + 1 := pieces[j]][..lastIndex' + 2]
          == buffer'[..lastIndex' + 1] + [pieces[j]];
      assert pieces[..j + 1] == pieces[..j] + [pieces[j]];
      buffer' := buffer'[lastIndex' + 1 := pieces[j]];
      lastIndex' := lastIndex' + 1;
      j := j + 1;
    }
    assert pieces[..j] == pieces;
    ok := true;
  }

  /**
   * One turn of the inner `while` of `pgl_clip`: pops the oldest queued
   * triangle, clips it against `p`, and writes its outputs after
   * `last_index`; `ok` is false when a write would land past the last slot.
   */
  method ClipNext(dot: DotOracle, queue: ClipQueue.Queue<Triangle>, p: Plane, build: Build,
                  buffer: seq<Triangle>, lastIndex: int)
    returns (ok: bool, queue': ClipQueue.Queue<Triangle>, buffer': seq<Triangle>, lastIndex': int)
    requires ClipQueue.Valid(queue) && !ClipQueue.IsEmpty(queue)
    requires |buffer| == ClipQueue.Capacity && -1 <= lastIndex < ClipQueue.Capacity
    ensures ClipQueue.Valid(queue') && |ClipQueue.Contents(queue')| < |ClipQueue.Contents(queue)|
    ensures |buffer'| == ClipQueue.Capacity && -1 <= lastIndex' < ClipQueue.Capacity
    ensures ok ==> (buffer'[..lastIndex' + 1] + ClipStage(dot, ClipQueue.Contents(queue'), p, build)
                 == buffer[..lastIndex + 1] + ClipStage(dot, ClipQueue.Contents(queue), p, build))
    ensures !ok ==> lastIndex + 1 + |ClipStage(dot, ClipQueue.Contents(queue), p, build)| > ClipQueue.Capacity
  {
    PopStage(dot, queue, p, build);
    var popped := ClipQueue.Pop(queue);
    queue' := popped.1;
    var pieces := ClipTriangle(dot, popped.0.value, p, build);
    ok, buffer', lastIndex' := Emit(buffer, lastIndex, pieces);
    AppendAssoc(buffer[..lastIndex + 1], pieces, ClipStage(dot, ClipQueue.Contents(queue'), p, build));
  }

  /**
   * The inner `while` of `pgl_clip`: pops every queued triangle, clips it
   * against `p`, and writes the outputs from slot 0 of `buffer` on.
   */
  method ClipPlane(dot: DotOracle, queue: ClipQueue.Queue<Triangle>, p: Plane, build: Build,
                   buffer: seq<Triangle>)
    returns (ok: bool, queue': ClipQueue.Queue<Triangle>, buffer': seq<Triangle>, lastIndex: int)
    requires ClipQueue.Valid(queue) && |buffer| == ClipQueue.Capacity
    ensures ClipQueue.Valid(queue') && ClipQueue.Contents(queue') == []
    ensures |buffer'| == ClipQueue.Capacity && -1 <= lastIndex < ClipQueue.Capacity
    ensures ok <==> |ClipStage(dot, ClipQueue.Contents(queue), p, build)| <= ClipQueue.Capacity
    ensures ok ==> buffer'[..lastIndex + 1] == ClipStage(dot, ClipQueue.Contents(queue), p, build)
  {
    ghost var all := ClipStage(dot, ClipQueue.Contents(queue), p, build);
    queue', buffer', lastIndex := queue, buffer, -1;
    while !ClipQueue.IsEmpty(queue')
      invariant ClipQueue.Valid(queue')
      invariant |buffer'| == ClipQueue.Capacity && -1 <= lastIndex < ClipQueue.Capacity
      invariant buffer'[..lastIndex + 1] + ClipStage(dot, ClipQueue.Contents(queue'), p, build) == all
      decreases |ClipQueue.Contents(queue')|
    {
      ghost var done := buffer'[..lastIndex + 1];
      ghost var rest := ClipStage(dot, ClipQueue.Contents(queue'), p, build);
      ok, queue', buffer', lastIndex := ClipNext(dot, queue', p, build, buffer', lastIndex);
      if !ok {
        assert |all| == |done| + |rest|;
        queue' := EmptyFrom(queue');
        return;
      }
    }
    ok := true;
  }

  /** Drains `q` without looking at what it held. */
  method EmptyFrom(q: ClipQueue.Queue<Triangle>) returns (r: ClipQueue.Queue<Triangle>)
    requires ClipQueue.Valid(q)
    ensures ClipQueue.Valid(r) && ClipQueue.Contents(r) == []
  {
    r := ClipQueue.Queue(q.slots, q.back, q.back);
  }

  /**
   * The `while (last_index >= 0)` after each of the first five planes:
   * pushes `subtriangles[last_index]` down to `subtriangles[0]`, where
   * `out` is `subtriangles[0..last_index]`.
   */
  method RequeueAll(queue: ClipQueue.Queue<Triangle>, out: seq<Triangle>)
    returns (queue': ClipQueue.Queue<Triangle>)
    requires ClipQueue.Valid(queue) && ClipQueue.Contents(queue) == []
    ensures ClipQueue.Valid(queue')
    ensures ClipQueue.Contents(queue') == Requeue(out)
  {
    queue' := queue;
    var lastIndex := |out| - 1;
    while lastIndex >= 0
      invariant -1 <= lastIndex < |out|
      invariant ClipQueue.Valid(queue')
      invariant ClipQueue.Contents(queue') == Requeue(out[lastIndex + 1..])
    {
      RequeuePush(queue', out, lastIndex);
      queue' := ClipQueue.Push(queue', out[lastIndex]);
      lastIndex := lastIndex - 1;
    }
    assert out[0..] == out;
  }

  /**
   * `pgl_clip(clip_triangle, subtriangles)`: the result is what
   * `ClipReference` says, and `lastIndex` is the index of the last
   * surviving subtriangle, `-1` when nothing survives.
   */
  method Clip(dot: DotOracle, t: Triangle, build: Build, subtriangles: seq<Triangle>)
    returns (r: ClipResult, lastIndex: int)
    requires |subtriangles| == ClipQueue.Capacity
    ensures r == ClipReference(dot, t, build)
    ensures r.Clipped? ==> lastIndex == LastIndex(r)
  {
    // The queue's storage starts uninitialised: any sixteen triangles will do.
    var queue := ClipQueue.Push(ClipQueue.Init(subtriangles), t);
    var buffer := subtriangles;
    ghost var target := ClipReference(dot, t, build);
    var i := 0;
    while true
      invariant 0 <= i < |Planes|
      invariant ClipQueue.Valid(queue) && |buffer| == ClipQueue.Capacity
      invariant ClipFrom(dot, ClipQueue.Contents(queue), i, build) == target
      decreases |Planes| - i
    {
      var ok;
      ghost var pending := ClipQueue.Contents(queue);
      ok, queue, buffer, lastIndex := ClipPlane(dot, queue, Planes[i], build, buffer);
      ClipFromStage(dot, pending, i, build);
      if !ok {
        return Overflow, lastIndex;
      }
      if i == |Planes| - 1 {
        return Clipped(buffer[..lastIndex + 1]), lastIndex;
      }
      queue := RequeueAll(queue, buffer[..lastIndex + 1]);
      i := i + 1;
    }
  }
}
