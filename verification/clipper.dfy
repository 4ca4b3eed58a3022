/**
 * Homogeneous clipping of one triangle against the six clip planes
 * (`pgl_clip` in `pgl/pgl.c`).
 *
 * Fixed-point arithmetic belongs to a library that is not part of this
 * model, so it stays symbolic: the dot product of a position with a plane
 * vector is an oracle passed in by the caller, and a vertex created on an
 * edge is recorded as the interpolation it was computed by, with the
 * dividend and divisor of its weight `alpha`.
 *
 * The shape of the output of one plane is computed on local names first
 * (`Shape`: corners and edge cuts of the input triangle), then
 * instantiated. `Shape` takes a `Build`: `AsWritten` emits the two-inside
 * arms as the source orders them, `Corrected` with those arms exchanged;
 * the winding of both is the subject of module `ClipWinding`.
 */
module Clipper {
  import opened Wrappers
  import ClipQueue

  /** A homogeneous position (`Q_VEC4`), as raw fixed-point values. */
  datatype Vec4 = Vec4(x: int, y: int, z: int, w: int)

  /** A texture coordinate (`Q_VEC2`), as raw fixed-point values. */
  datatype Vec2 = Vec2(u: int, v: int)

  /** The weight of an edge cut, `q_div(dividend, divisor)`, kept as its two operands. */
  datatype Alpha = Alpha(dividend: int, divisor: int)

  /**
   * A value computed by the clipper: given, or `q_vecN_interp(x, y, alpha)`,
   * the point `y + alpha * (x - y)`.
   */
  datatype Term<T> = Exact(value: T) | Lerp(x: Term<T>, y: Term<T>, alpha: Alpha)

  /** `pgl_clip_vertex_t`. */
  datatype ClipVertex = ClipVertex(position: Term<Vec4>, texCoord: Term<Vec2>)

  /** `pgl_clip_triangle_t`. */
  datatype Triangle = Triangle(v0: ClipVertex, v1: ClipVertex, v2: ClipVertex)

  /** Vertex `i` of a triangle. */
  function Vertex(t: Triangle, i: nat): ClipVertex
    requires i < 3
  {
    if i == 0 then t.v0 else if i == 1 then t.v1 else t.v2
  }

  // ------------------------------------------------------------------
  // Planes and the inside test

  /** The six clip planes, in the order they are applied. */
  datatype Plane = Near | Left | Right | Bottom | Top | Far

  const Planes: seq<Plane> := [Near, Left, Right, Bottom, Top, Far]

  /** `clip_plane_vectors[i]`, in units of `Q_ONE`. */
  function PlaneVector(p: Plane): (r: Vec4)
    ensures r.w == 1 || r.w == -1
  {
    match p
    case Near => Vec4(0, 0, 1, 1)
    case Left => Vec4(1, 0, 0, 1)
    case Right => Vec4(1, 0, 0, -1)
    case Bottom => Vec4(0, 1, 0, 1)
    case Top => Vec4(0, 1, 0, -1)
    case Far => Vec4(0, 0, 1, -1)
  }

  /** `q_vec4_dot(position, plane_vector)`, supplied by the caller. */
  type DotOracle = (Term<Vec4>, Vec4) -> int

  /** The dot product of a vertex's position with the vector of plane `p`. */
  function Dot(dot: DotOracle, v: ClipVertex, p: Plane): int
  {
    dot(v.position, PlaneVector(p))
  }

  /**
   * The inside test: `q_mul(w, dot) > 0` with `w` the plane vector's last
   * component, `Q_ONE` or `Q_M_ONE`, so the product is `dot` or `-dot`.
   */
  predicate Inside(p: Plane, d: int)
  {
    PlaneVector(p).w * d > 0
  }

  /** With `w` at `Q_ONE` the test is `dot > 0`; with `w` at `Q_M_ONE` it is `dot < 0`. */
  lemma InsideSign(p: Plane, d: int)
    ensures PlaneVector(p).w == 1 ==> (Inside(p, d) <==> d > 0)
    ensures PlaneVector(p).w == -1 ==> (Inside(p, d) <==> d < 0)
  {
  }

  /** A vertex and an outside one never have the same dot product with the plane. */
  lemma InsideOutsideDiffer(p: Plane, din: int, dout: int)
    requires Inside(p, din) && !Inside(p, dout)
    ensures din != dout
  {
  }

  /** Which of the three vertices are inside plane `p`. */
  function InsideFlags(dot: DotOracle, t: Triangle, p: Plane): (r: seq<bool>)
    ensures |r| == 3
    ensures forall i :: 0 <= i < 3 ==> (r[i] <==> Inside(p, Dot(dot, Vertex(t, i), p)))
  {
    [Inside(p, Dot(dot, t.v0, p)), Inside(p, Dot(dot, t.v1, p)), Inside(p, Dot(dot, t.v2, p))]
  }

  /** `num_inside`. */
  function CountInside(ins: seq<bool>): (r: nat)
    requires |ins| == 3
    ensures r <= 3
    ensures r == 3 <==> ins[0] && ins[1] && ins[2]
    ensures r == 0 <==> !ins[0] && !ins[1] && !ins[2]
  {
    (if ins[0] then 1 else 0) + (if ins[1] then 1 else 0) + (if ins[2] then 1 else 0)
  }

  // ------------------------------------------------------------------
  // The shape of one plane's output, on local names

  /** A vertex of an output triangle: input corner `i`, or the cut on the edge from corner `a` to `b`. */
  datatype Local = Corner(i: nat) | Cut(a: nat, b: nat)

  /** An output triangle in local names. */
  datatype LocalTri = LocalTri(p: Local, q: Local, r: Local)

  /** The order of the two-inside arms: as the source has them, or exchanged. */
  datatype Build = AsWritten | Corrected

  /** Whether `l` names an inside corner or a cut on an edge that crosses the plane. */
  predicate LocalOk(ins: seq<bool>, l: Local)
    requires |ins| == 3
  {
    match l
    case Corner(i) => i < 3 && ins[i]
    case Cut(a, b) => a < 3 && b < 3 && ins[a] != ins[b]
  }

  /** Whether the three vertices of `t` satisfy `LocalOk`. */
  predicate LocalTriOk(ins: seq<bool>, t: LocalTri)
    requires |ins| == 3
  {
    LocalOk(ins, t.p) && LocalOk(ins, t.q) && LocalOk(ins, t.r)
  }

  /**
   * The index order after the conditional `SWAP`s: with two inside, the
   * outside vertex is brought to slot 0; with one inside, the inside one.
   */
  function SwapOrder(ins: seq<bool>): (s: seq<nat>)
    requires |ins| == 3
    ensures |s| == 3 && s[0] < 3 && s[1] < 3 && s[2] < 3
    ensures s[0] != s[1] && s[0] != s[2] && s[1] != s[2]
    ensures CountInside(ins) == 2 ==> !ins[s[0]] && ins[s[1]] && ins[s[2]]
    ensures CountInside(ins) == 1 ==> ins[s[0]] && !ins[s[1]] && !ins[s[2]]
    ensures s[0] == 0 <==> s == [0, 1, 2]
  {
    var first := CountInside(ins) == 2;
    if ins[1] != first then [1, 0, 2]
    else if ins[2] != first then [2, 1, 0]
    else [0, 1, 2]
  }

  /**
   * The subtriangles emitted for one input triangle whose vertices' inside
   * flags are `ins`. `v0_inside` selects the arm, and it is the flag of the
   * original vertex 0, before the swap.
   */
  function Shape(ins: seq<bool>, build: Build): (r: seq<LocalTri>)
    requires |ins| == 3
    ensures CountInside(ins) == 3 ==> r == [LocalTri(Corner(0), Corner(1), Corner(2))]
    ensures CountInside(ins) == 2 ==> |r| == 2
    ensures CountInside(ins) == 1 ==> |r| == 1
    ensures CountInside(ins) == 0 ==> r == []
    ensures forall k :: 0 <= k < |r| ==> LocalTriOk(ins, r[k])
  {
    var n := CountInside(ins);
    if n == 3 then
      [LocalTri(Corner(0), Corner(1), Corner(2))]
    else if n == 2 then
      var s := SwapOrder(ins);
      var v10 := Cut(s[0], s[1]);
      var v20 := Cut(s[0], s[2]);
      var ifArm := [LocalTri(v10, Corner(s[1]), Corner(s[2])), LocalTri(v10, Corner(s[2]), v20)];
      var elseArm := [LocalTri(v10, v20, Corner(s[2])), LocalTri(v10, Corner(s[2]), Corner(s[1]))];
      if ins[0] == (build == AsWritten) then ifArm else elseArm
    else if n == 1 then
      var s := SwapOrder(ins);
      var v10 := Cut(s[0], s[1]);
      var v20 := Cut(s[0], s[2]);
      if ins[0] then [LocalTri(Corner(s[0]), v10, v20)] else [LocalTri(Corner(s[0]), v20, v10)]
    else
      []
  }

  // ------------------------------------------------------------------
  // One plane, on actual vertices

  /**
   * The vertex `vertex10`/`vertex20` on the edge from `va` (the vertex in
   * slot 0 after the swap) to `vb`: position and texture coordinate are
   * both interpolated with `alpha = dot_a / (dot_a - dot_b)`.
   */
  function CutVertex(dot: DotOracle, p: Plane, va: ClipVertex, vb: ClipVertex): ClipVertex
  {
    var da := Dot(dot, va, p);
    var alpha := Alpha(da, da - Dot(dot, vb, p));
    ClipVertex(Lerp(vb.position, va.position, alpha), Lerp(vb.texCoord, va.texCoord, alpha))
  }

  /** The actual vertex a local name stands for. */
  function Instantiate(dot: DotOracle, t: Triangle, p: Plane, l: Local): ClipVertex
    requires l.Corner? ==> l.i < 3
    requires l.Cut? ==> l.a < 3 && l.b < 3
  {
    match l
    case Corner(i) => Vertex(t, i)
    case Cut(a, b) => CutVertex(dot, p, Vertex(t, a), Vertex(t, b))
  }

  /**
   * Whether `v` may appear in the output of clipping `t` against `p`: an
   * inside vertex of `t`, or the cut on an edge of `t` from a vertex to
   * one on the other side of the plane, whose weight has a non-zero divisor.
   */
  predicate FromInput(dot: DotOracle, t: Triangle, p: Plane, v: ClipVertex)
  {
    (exists i :: 0 <= i < 3 && v == Vertex(t, i) && Inside(p, Dot(dot, Vertex(t, i), p)))
    || (exists a, b :: 0 <= a < 3 && 0 <= b < 3
          && Inside(p, Dot(dot, Vertex(t, a), p)) != Inside(p, Dot(dot, Vertex(t, b), p))
          && v == CutVertex(dot, p, Vertex(t, a), Vertex(t, b))
          && v.position.alpha.divisor != 0)
  }

  /** A local name that passes `LocalOk` stands for a vertex that passes `FromInput`. */
  lemma InstantiateFromInput(dot: DotOracle, t: Triangle, p: Plane, l: Local)
    requires LocalOk(InsideFlags(dot, t, p), l)
    ensures FromInput(dot, t, p, Instantiate(dot, t, p, l))
  {
    var ins := InsideFlags(dot, t, p);
    match l
    case Corner(i) =>
      assert Inside(p, Dot(dot, Vertex(t, i), p));
    case Cut(a, b) =>
      var va, vb := Vertex(t, a), Vertex(t, b);
      if Inside(p, Dot(dot, va, p)) {
        InsideOutsideDiffer(p, Dot(dot, va, p), Dot(dot, vb, p));
      } else {
        InsideOutsideDiffer(p, Dot(dot, vb, p), Dot(dot, va, p));
      }
      assert Instantiate(dot, t, p, l).position.alpha.divisor != 0;
  }

  /** An output triangle of local names, instantiated. */
  function InstantiateTri(dot: DotOracle, t: Triangle, p: Plane, lt: LocalTri): Triangle
    requires LocalTriOk(InsideFlags(dot, t, p), lt)
  {
    Triangle(Instantiate(dot, t, p, lt.p), Instantiate(dot, t, p, lt.q), Instantiate(dot, t, p, lt.r))
  }

  /**
   * The subtriangles one input triangle contributes against plane `p`:
   * itself when all three vertices are inside, two with two inside, one
   * with one inside, none with none; every vertex comes from the input.
   */
  function ClipTriangle(dot: DotOracle, t: Triangle, p: Plane, build: Build): (r: seq<Triangle>)
    ensures CountInside(InsideFlags(dot, t, p)) == 3 ==> r == [t]
    ensures CountInside(InsideFlags(dot, t, p)) == 2 ==> |r| == 2
    ensures CountInside(InsideFlags(dot, t, p)) == 1 ==> |r| == 1
    ensures CountInside(InsideFlags(dot, t, p)) == 0 ==> r == []
  {
    var shape := Shape(InsideFlags(dot, t, p), build);
    seq(|shape|, k requires 0 <= k < |shape| => InstantiateTri(dot, t, p, shape[k]))
  }

  /**
   * Every vertex `ClipTriangle` emits is an inside vertex of the input or
   * lies on an input edge that crosses the plane, interpolated with one
   * `alpha` for position and texture coordinate.
   */
  lemma ClipTriangleFromInput(dot: DotOracle, t: Triangle, p: Plane, build: Build)
    ensures forall tri <- ClipTriangle(dot, t, p, build) ::
      FromInput(dot, t, p, tri.v0) && FromInput(dot, t, p, tri.v1) && FromInput(dot, t, p, tri.v2)
  {
    var shape := Shape(InsideFlags(dot, t, p), build);
    var r := ClipTriangle(dot, t, p, build);
    forall k | 0 <= k < |r|
      ensures FromInput(dot, t, p, r[k].v0) && FromInput(dot, t, p, r[k].v1) && FromInput(dot, t, p, r[k].v2)
    {
      assert r[k] == InstantiateTri(dot, t, p, shape[k]);
      InstantiateFromInput(dot, t, p, shape[k].p);
      InstantiateFromInput(dot, t, p, shape[k].q);
      InstantiateFromInput(dot, t, p, shape[k].r);
    }
  }

  // ------------------------------------------------------------------
  // All six planes

  /** All outputs of one plane for the queued inputs `ts`, in queue order. */
  function ClipStage(dot: DotOracle, ts: seq<Triangle>, p: Plane, build: Build): (r: seq<Triangle>)
    ensures |r| <= 2 * |ts|
  {
    if ts == [] then []
    else ClipTriangle(dot, ts[0], p, build) + ClipStage(dot, ts[1..], p, build)
  }

  /** The outcome of clipping: the surviving subtriangles, or a write past `subtriangles[15]`. */
  datatype ClipResult = Clipped(triangles: seq<Triangle>) | Overflow

  /** `last_index` as `pgl_clip` returns it: the index of the last subtriangle, `-1` for none. */
  function LastIndex(r: ClipResult): int
    requires r.Clipped?
  {
    |r.triangles| - 1
  }

  /** The reversal of `ts`. */
  function Reverse<T>(ts: seq<T>): (r: seq<T>)
    ensures |r| == |ts|
    ensures forall i :: 0 <= i < |ts| ==> r[i] == ts[|ts| - 1 - i]
  {
    if ts == [] then [] else Reverse(ts[1..]) + [ts[0]]
  }

  /**
   * The next plane's queue: the outputs pushed from the last to the first,
   * keeping the first `Capacity - 1`; a push onto the full queue is dropped.
   */
  function Requeue<T>(out: seq<T>): (r: seq<T>)
    ensures |r| == if |out| < ClipQueue.Capacity then |out| else ClipQueue.Capacity - 1
    ensures forall i :: 0 <= i < |r| ==> r[i] == out[|out| - 1 - i]
  {
    var rev := Reverse(out);
    if |rev| < ClipQueue.Capacity then rev else rev[..ClipQueue.Capacity - 1]
  }

  /** Clipping the queued triangles `pending` against plane `k` and those after it. */
  function ClipFrom(dot: DotOracle, pending: seq<Triangle>, k: nat, build: Build): (r: ClipResult)
    requires k < |Planes|
    ensures r.Clipped? ==> |r.triangles| <= ClipQueue.Capacity
    decreases |Planes| - k
  {
    var out := ClipStage(dot, pending, Planes[k], build);
    if |out| > ClipQueue.Capacity then Overflow
    else if k == |Planes| - 1 then Clipped(out)
    else ClipFrom(dot, Requeue(out), k + 1, build)
  }

  /** What clipping `t` against all six planes yields. */
  function ClipReference(dot: DotOracle, t: Triangle, build: Build): (r: ClipResult)
    ensures r.Clipped? ==> |r.triangles| <= ClipQueue.Capacity
  {
    ClipFrom(dot, [t], 0, build)
  }

  // ------------------------------------------------------------------
  // Whole-clip properties

  /** Whether all three vertices of `t` are inside plane `p`. */
  predicate AllInside(dot: DotOracle, t: Triangle, p: Plane)
  {
    CountInside(InsideFlags(dot, t, p)) == 3
  }

  /** One step of `ClipFrom`, spelled out. */
  lemma ClipFromStage(dot: DotOracle, pending: seq<Triangle>, k: nat, build: Build)
    requires k < |Planes|
    ensures var out := ClipStage(dot, pending, Planes[k], build);
      ClipFrom(dot, pending, k, build)
        == if |out| > ClipQueue.Capacity then Overflow
           else if k == |Planes| - 1 then Clipped(out)
           else ClipFrom(dot, Requeue(out), k + 1, build)
  {
  }
  /** The stage of a single queued triangle is that triangle's outputs. */
  lemma StageOfOne(dot: DotOracle, t: Triangle, p: Plane, build: Build)
    ensures ClipStage(dot, [t], p, build) == ClipTriangle(dot, t, p, build)
  {
    assert ClipStage(dot, [t], p, build) == ClipTriangle(dot, t, p, build) + ClipStage(dot, [], p, build);
  }

  /** A triangle inside planes `k` to the last comes out of them unchanged and alone. */
  lemma {:induction false} ClipFromInside(dot: DotOracle, t: Triangle, k: nat, build: Build)
    requires k < |Planes|
    requires forall j :: k <= j < |Planes| ==> AllInside(dot, t, Planes[j])
    ensures ClipFrom(dot, [t], k, build) == Clipped([t])
    decreases |Planes| - k
  {
    StageOfOne(dot, t, Planes[k], build);
    ClipFromStage(dot, [t], k, build);
    if k < |Planes| - 1 {
      assert Requeue([t]) == [t];
      ClipFromInside(dot, t, k + 1, build);
    }
  }

  /** A triangle inside all six planes is passed through untouched: `last_index` is 0. */
  lemma ClipInside(dot: DotOracle, t: Triangle, build: Build)
    requires forall p :: AllInside(dot, t, p)
    ensures ClipReference(dot, t, build) == Clipped([t])
    ensures LastIndex(ClipReference(dot, t, build)) == 0
  {
    ClipFromInside(dot, t, 0, build);
  }

  /** Once nothing is queued, nothing comes out. */
  lemma {:induction false} ClipFromNothing(dot: DotOracle, k: nat, build: Build)
    requires k < |Planes|
    ensures ClipFrom(dot, [], k, build) == Clipped([])
    decreases |Planes| - k
  {
    ClipFromStage(dot, [], k, build);
    if k < |Planes| - 1 {
      assert Requeue<Triangle>([]) == [];
      ClipFromNothing(dot, k + 1, build);
    }
  }

  /**
   * A triangle inside the planes before plane `k` and wholly outside plane
   * `k` is clipped away: `last_index` is -1.
   */
  lemma {:induction false} ClipOutside(dot: DotOracle, t: Triangle, k: nat, build: Build)
    requires k < |Planes|
    requires forall j :: 0 <= j < k ==> AllInside(dot, t, Planes[j])
    requires CountInside(InsideFlags(dot, t, Planes[k])) == 0
    ensures ClipReference(dot, t, build) == Clipped([])
    ensures LastIndex(ClipReference(dot, t, build)) == -1
  {
    ClipOutsideFrom(dot, t, 0, k, build);
  }

  /** A triangle entirely outside plane `k` leaves nothing from stage `k` on. */
  lemma OutsideStage(dot: DotOracle, t: Triangle, k: nat, build: Build)
    requires k < |Planes|
    requires CountInside(InsideFlags(dot, t, Planes[k])) == 0
    ensures ClipFrom(dot, [t], k, build) == Clipped([])
  {
    StageOfOne(dot, t, Planes[k], build);
    ClipFromStage(dot, [t], k, build);
    assert ClipTriangle(dot, t, Planes[k], build) == [];
    if k < |Planes| - 1 {
      assert Requeue<Triangle>([]) == [];
      ClipFromNothing(dot, k + 1, build);
    }
  }

  /** A triangle entirely inside a plane that is not the last passes on to the next stage. */
  lemma InsideStage(dot: DotOracle, t: Triangle, k: nat, build: Build)
    requires k < |Planes| - 1
    requires AllInside(dot, t, Planes[k])
    ensures ClipFrom(dot, [t], k, build) == ClipFrom(dot, [t], k + 1, build)
  {
    StageOfOne(dot, t, Planes[k], build);
    ClipFromStage(dot, [t], k, build);
    assert Requeue([t]) == [t];
  }

  /** A triangle inside planes `i` to `k - 1` and entirely outside plane `k` is rejected. */
  lemma {:induction false} ClipOutsideFrom(dot: DotOracle, t: Triangle, i: nat, k: nat, build: Build)
    requires i <= k < |Planes|
    requires forall j :: i <= j < k ==> AllInside(dot, t, Planes[j])
    requires CountInside(InsideFlags(dot, t, Planes[k])) == 0
    ensures ClipFrom(dot, [t], i, build) == Clipped([])
    decreases k - i
  {
    if i == k {
      OutsideStage(dot, t, k, build);
    } else {
      InsideStage(dot, t, i, build);
      ClipOutsideFrom(dot, t, i + 1, k, build);
    }
  }
}
