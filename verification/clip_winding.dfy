/**
 * Winding of the triangles `pgl_clip` emits (`pgl/pgl.c`, "Preserve the
 * winding order").
 *
 * Every output vertex lies on the boundary of the input triangle: a corner,
 * or a cut on one of its edges. Walking the boundary `v0`, edge 0-1, `v1`,
 * edge 1-2, `v2`, edge 2-0 gives each such vertex a position 0 to 5; a
 * triangle on boundary points of a convex region has the orientation of
 * the region exactly when its vertices come in the same cyclic order.
 *
 * With two vertices inside, the source emits the arms in the order that
 * reverses the winding (`Build.AsWritten`); exchanging them
 * (`Build.Corrected`) keeps it. A concrete triangle, evaluated on raw
 * `Q16_16` values with exact division, shows the effect: both pieces the source emits for a
 * counter-clockwise triangle crossing the near plane are culled as back faces.
 */
module ClipWinding {
  import opened Clipper
  import Cull

  /** Where on the input triangle's boundary a well-formed local vertex lies. */
  function PerimeterPos(l: Local): (r: nat)
    requires l.Corner? ==> l.i < 3
    requires l.Cut? ==> l.a < 3 && l.b < 3 && l.a != l.b
    ensures r < 6
    ensures r % 2 == 0 <==> l.Corner?
  {
    match l
    case Corner(i) => 2 * i
    case Cut(a, b) =>
      if a + b == 1 then 1       // edge v0-v1
      else if a + b == 3 then 3  // edge v1-v2
      else 5                     // edge v2-v0
  }

  /** Whether three boundary positions come in increasing cyclic order. */
  predicate CyclicIncreasing(p: nat, q: nat, r: nat)
  {
    (p < q < r) || (q < r < p) || (r < p < q)
  }

  /** A well-formed output triangle that has the input's winding. */
  predicate KeepsWinding(ins: seq<bool>, t: LocalTri)
    requires |ins| == 3 && LocalTriOk(ins, t)
  {
    CyclicIncreasing(PerimeterPos(t.p), PerimeterPos(t.q), PerimeterPos(t.r))
  }

  /** A well-formed output triangle that has the opposite winding to the input. */
  predicate ReversesWinding(ins: seq<bool>, t: LocalTri)
    requires |ins| == 3 && LocalTriOk(ins, t)
  {
    CyclicIncreasing(PerimeterPos(t.r), PerimeterPos(t.q), PerimeterPos(t.p))
  }

  /** The corrected two-inside arms, and all other cases as written, keep the winding. */
  lemma CorrectedKeepsWinding(ins: seq<bool>)
    requires |ins| == 3
    ensures forall t <- Shape(ins, Corrected) :: KeepsWinding(ins, t)
  {
    var s := SwapOrder(ins);
    assert s == [0, 1, 2] || s == [1, 0, 2] || s == [2, 1, 0];
  }

  /** With other than two vertices inside, the source's arms keep the winding. */
  lemma AsWrittenKeepsWindingUnlessTwoInside(ins: seq<bool>)
    requires |ins| == 3 && CountInside(ins) != 2
    ensures forall t <- Shape(ins, AsWritten) :: KeepsWinding(ins, t)
  {
    var s := SwapOrder(ins);
    assert s == [0, 1, 2] || s == [1, 0, 2] || s == [2, 1, 0];
  }

  /** With two vertices inside, every triangle the source emits has the reversed winding. */
  lemma AsWrittenTwoInsideReversesWinding(ins: seq<bool>)
    requires |ins| == 3 && CountInside(ins) == 2
    ensures |Shape(ins, AsWritten)| == 2
    ensures forall t <- Shape(ins, AsWritten) :: ReversesWinding(ins, t)
  {
    var s := SwapOrder(ins);
    assert s == [0, 1, 2] || s == [1, 0, 2] || s == [2, 1, 0];
  }

  // ------------------------------------------------------------------
  // A concrete triangle

  /** `Q_ONE` in the default `Q16_16` format. */
  const QOne: int := 0x1_0000

  /** `q_vec4_dot(position, (0, 0, Q_ONE, Q_ONE))`: the dot product with the near plane vector. */
  function NearDot(v: Vec4): int
  {
    v.z + v.w
  }

  /**
   * `q_vec4_interp(x, y, alpha)`, the point `y + alpha * (x - y)`, with
   * `alpha` the exact quotient of its dividend and divisor.
   */
  function Interp(x: Vec4, y: Vec4, alpha: Alpha): Vec4
    requires alpha.divisor != 0
  {
    var d, n := alpha.divisor, alpha.dividend;
    Vec4(y.x + (x.x - y.x) * n / d, y.y + (x.y - y.y) * n / d,
         y.z + (x.z - y.z) * n / d, y.w + (x.w - y.w) * n / d)
  }

  /** The position a local vertex stands for when clipping `corners` against the near plane. */
  function Place(corners: seq<Vec4>, l: Local): Vec4
    requires |corners| == 3
    requires l.Corner? ==> l.i < 3
    requires l.Cut? ==> l.a < 3 && l.b < 3 && NearDot(corners[l.a]) != NearDot(corners[l.b])
  {
    match l
    case Corner(i) => corners[i]
    case Cut(a, b) =>
      var da := NearDot(corners[a]);
      Interp(corners[b], corners[a], Alpha(da, da - NearDot(corners[b])))
  }

  /** The perspective divide, `q_div(x, w)` and `q_div(y, w)`, to normalised device coordinates. */
  function Ndc(v: Vec4): Cull.Point
    requires v.w != 0
  {
    Cull.Point(v.x * QOne / v.w, v.y * QOne / v.w)
  }

  /**
   * The example: `v0` behind the near plane, `v1` and `v2` in front,
   * counter-clockwise on screen, every `w` equal to one.
   */
  function Example(): seq<Vec4>
  {
    [Vec4(0, 0, -3 * QOne, QOne), Vec4(QOne, 0, QOne, QOne), Vec4(0, QOne, QOne, QOne)]
  }

  /** Corners whose first vertex is behind the near plane and whose other two are in front. */
  predicate FirstBehind(c: seq<Vec4>)
  {
    |c| == 3 && NearDot(c[0]) <= 0 && NearDot(c[1]) > 0 && NearDot(c[2]) > 0
  }

  /** Whether the triangle `t` emitted when clipping `c` against the near plane reaches the screen culled. */
  predicate CulledOn(c: seq<Vec4>, t: LocalTri)
    requires FirstBehind(c) && LocalTriOk([false, true, true], t)
  {
    var p, q, r := Place(c, t.p), Place(c, t.q), Place(c, t.r);
    p.w != 0 && q.w != 0 && r.w != 0 && Cull.FaceIsCulled(Ndc(p), Ndc(q), Ndc(r))
  }

  /** Whether the triangle `t` emitted when clipping `c` against the near plane reaches the screen drawn. */
  predicate DrawnOn(c: seq<Vec4>, t: LocalTri)
    requires FirstBehind(c) && LocalTriOk([false, true, true], t)
  {
    var p, q, r := Place(c, t.p), Place(c, t.q), Place(c, t.r);
    p.w != 0 && q.w != 0 && r.w != 0 && !Cull.FaceIsCulled(Ndc(p), Ndc(q), Ndc(r))
  }

  /** The two cuts of the example against the near plane: the midpoints of edges 0-1 and 0-2. */
  lemma ExampleCuts()
    ensures Place(Example(), Cut(0, 1)) == Vec4(QOne / 2, 0, -QOne, QOne)
    ensures Place(Example(), Cut(0, 2)) == Vec4(0, QOne / 2, -QOne, QOne)
  {
  }

  /** The example's corners and cuts on screen, as raw fixed-point values. */
  lemma ExampleScreen()
    ensures Ndc(Example()[0]) == Cull.Point(0, 0)
    ensures Ndc(Example()[1]) == Cull.Point(QOne, 0)
    ensures Ndc(Example()[2]) == Cull.Point(0, QOne)
    ensures Ndc(Place(Example(), Cut(0, 1))) == Cull.Point(QOne / 2, 0)
    ensures Ndc(Place(Example(), Cut(0, 2))) == Cull.Point(0, QOne / 2)
  {
    ExampleCuts();
  }

  /** The subtriangles emitted when only vertex 0 is outside, both ways round. */
  lemma OutsideFirstShapes()
    ensures Shape([false, true, true], AsWritten)
         == [LocalTri(Cut(0, 1), Cut(0, 2), Corner(2)), LocalTri(Cut(0, 1), Corner(2), Corner(1))]
    ensures Shape([false, true, true], Corrected)
         == [LocalTri(Cut(0, 1), Corner(1), Corner(2)), LocalTri(Cut(0, 1), Corner(2), Cut(0, 2))]
  {
    assert SwapOrder([false, true, true]) == [0, 1, 2];
  }

  /** The example's corners and its two cuts on screen, in raw `Q16_16` units. */
  function Origin(): Cull.Point { Cull.Point(0, 0) }
  function RightCorner(): Cull.Point { Cull.Point(0x1_0000, 0) }
  function TopCorner(): Cull.Point { Cull.Point(0, 0x1_0000) }
  function RightCut(): Cull.Point { Cull.Point(0x8000, 0) }
  function TopCut(): Cull.Point { Cull.Point(0, 0x8000) }

  /** Where each vertex of the example lands on screen. */
  lemma ExampleOnScreen()
    ensures FirstBehind(Example())
    ensures Example()[0].w != 0 && Ndc(Example()[0]) == Origin()
    ensures Example()[1].w != 0 && Ndc(Example()[1]) == RightCorner()
    ensures Example()[2].w != 0 && Ndc(Example()[2]) == TopCorner()
    ensures Place(Example(), Cut(0, 1)).w != 0 && Ndc(Place(Example(), Cut(0, 1))) == RightCut()
    ensures Place(Example(), Cut(0, 2)).w != 0 && Ndc(Place(Example(), Cut(0, 2))) == TopCut()
  {
    ExampleCuts();
    ExampleScreen();
  }

  /** The example triangle is counter-clockwise on screen, twice its area being `Q_ONE` squared. */
  lemma ExampleFacesViewer()
    ensures Cull.SignedArea(Origin(), RightCorner(), TopCorner()) == 0x1_0000_0000
    ensures !Cull.FaceIsCulled(Origin(), RightCorner(), TopCorner())
  {
    assert Cull.Sub(RightCorner(), Origin()) == Cull.Point(0x1_0000, 0);
    assert Cull.Sub(TopCorner(), Origin()) == Cull.Point(0, 0x1_0000);
  }

  /** The example triangle has its first vertex behind the near plane and reaches the screen drawn. */
  lemma ExampleDrawn()
    ensures FirstBehind(Example())
    ensures !Cull.FaceIsCulled(Ndc(Example()[0]), Ndc(Example()[1]), Ndc(Example()[2]))
  {
    ExampleOnScreen();
    ExampleFacesViewer();
  }

  /** The source's pieces, `{v10, v20, v2}` and `{v10, v2, v1}`, have negative area on screen. */
  lemma AsWrittenPiecesCulled()
    ensures Cull.SignedArea(RightCut(), TopCut(), TopCorner()) == -0x4000_0000
    ensures Cull.SignedArea(RightCut(), TopCorner(), RightCorner()) == -0x8000_0000
    ensures Cull.FaceIsCulled(RightCut(), TopCut(), TopCorner())
    ensures Cull.FaceIsCulled(RightCut(), TopCorner(), RightCorner())
  {
    // The sides from the cut on edge 0-1 to the other three points.
    assert Cull.Sub(TopCut(), RightCut()) == Cull.Point(-0x8000, 0x8000);
    assert Cull.Sub(TopCorner(), RightCut()) == Cull.Point(-0x8000, 0x1_0000);
    assert Cull.Sub(RightCorner(), RightCut()) == Cull.Point(0x8000, 0);
  }

  /** The corrected pieces, `{v10, v1, v2}` and `{v10, v2, v20}`, have positive area on screen. */
  lemma CorrectedPiecesDrawn()
    ensures Cull.SignedArea(RightCut(), RightCorner(), TopCorner()) == 0x8000_0000
    ensures Cull.SignedArea(RightCut(), TopCorner(), TopCut()) == 0x4000_0000
    ensures !Cull.FaceIsCulled(RightCut(), RightCorner(), TopCorner())
    ensures !Cull.FaceIsCulled(RightCut(), TopCorner(), TopCut())
  {
    assert Cull.Sub(TopCut(), RightCut()) == Cull.Point(-0x8000, 0x8000);
    assert Cull.Sub(TopCorner(), RightCut()) == Cull.Point(-0x8000, 0x1_0000);
    assert Cull.Sub(RightCorner(), RightCut()) == Cull.Point(0x8000, 0);
  }

  /**
   * For any corners with the first behind the near plane: if the pieces
   * reach the screen with the orientations the example's do, the source's
   * two pieces are culled and the corrected ones drawn.
   */
  lemma PiecesOnScreen(c: seq<Vec4>, v1: Cull.Point, v2: Cull.Point, v10: Cull.Point, v20: Cull.Point)
    requires FirstBehind(c)
    requires c[1].w != 0 && Ndc(c[1]) == v1 && c[2].w != 0 && Ndc(c[2]) == v2
    requires Place(c, Cut(0, 1)).w != 0 && Ndc(Place(c, Cut(0, 1))) == v10
    requires Place(c, Cut(0, 2)).w != 0 && Ndc(Place(c, Cut(0, 2))) == v20
    requires Cull.FaceIsCulled(v10, v20, v2) && Cull.FaceIsCulled(v10, v2, v1)
    requires !Cull.FaceIsCulled(v10, v1, v2) && !Cull.FaceIsCulled(v10, v2, v20)
    ensures forall t <- Shape([false, true, true], AsWritten) :: CulledOn(c, t)
    ensures forall t <- Shape([false, true, true], Corrected) :: DrawnOn(c, t)
  {
    OutsideFirstShapes();
    assert Place(c, Corner(1)) == c[1] && Place(c, Corner(2)) == c[2];
  }

  /** Both triangles the source emits for the example are culled. */
  lemma AsWrittenExampleCulled()
    requires FirstBehind(Example())
    ensures forall t <- Shape([false, true, true], AsWritten) :: CulledOn(Example(), t)
  {
    ExampleOnScreen();
    AsWrittenPiecesCulled();
    CorrectedPiecesDrawn();
    PiecesOnScreen(Example(), RightCorner(), TopCorner(), RightCut(), TopCut());
  }

  /** Both triangles the corrected arms emit for the example are drawn. */
  lemma CorrectedExampleDrawn()
    requires FirstBehind(Example())
    ensures forall t <- Shape([false, true, true], Corrected) :: DrawnOn(Example(), t)
  {
    ExampleOnScreen();
    AsWrittenPiecesCulled();
    CorrectedPiecesDrawn();
    PiecesOnScreen(Example(), RightCorner(), TopCorner(), RightCut(), TopCut());
  }

  /**
   * The example triangle faces the viewer, yet both triangles the source
   * emits for it against the near plane are culled; the corrected arms
   * emit two triangles that are both drawn.
   */
  lemma NearPlaneExample()
    ensures FirstBehind(Example())
    ensures !Cull.FaceIsCulled(Ndc(Example()[0]), Ndc(Example()[1]), Ndc(Example()[2]))
    ensures |Shape([false, true, true], AsWritten)| == 2
    ensures forall t <- Shape([false, true, true], AsWritten) :: CulledOn(Example(), t)
    ensures |Shape([false, true, true], Corrected)| == 2
    ensures forall t <- Shape([false, true, true], Corrected) :: DrawnOn(Example(), t)
  {
    ExampleDrawn();
    OutsideFirstShapes();
    AsWrittenExampleCulled();
    CorrectedExampleDrawn();
  }
}
