/**
 * Back-face culling (`pgl_face_is_culled` in `pgl/pgl.c`): front faces are
 * counter-clockwise, and a face is culled when the cross product of its
 * edges from vertex 0, its doubled signed area in normalised device
 * coordinates, is negative. Coordinates are raw fixed-point values; the
 * cross product is computed exactly, at double width.
 */
module Cull {

  /** The `x` and `y` of a vertex in normalised device coordinates. */
  datatype Point = Point(x: int, y: int)

  /** `q_vec2_sub(a, b)`. */
  function Sub(a: Point, b: Point): Point
  {
    Point(a.x - b.x, a.y - b.y)
  }

  /** `q_vec2_cross(a, b)`: the `z` of the cross product. */
  function Cross(a: Point, b: Point): int
  {
    a.x * b.y - a.y * b.x
  }

  /** Twice the signed area of the triangle `v0 v1 v2`: positive when counter-clockwise. */
  function SignedArea(v0: Point, v1: Point, v2: Point): int
  {
    Cross(Sub(v1, v0), Sub(v2, v0))
  }

  /** `pgl_face_is_culled`. */
  predicate FaceIsCulled(v0: Point, v1: Point, v2: Point)
  {
    SignedArea(v0, v1, v2) < 0
  }

  /**
   * The cross product of the edges from vertex 0 is the shoelace formula:
   * twice the signed area enclosed by `v0 v1 v2`, with no vertex singled out.
   */
  lemma ShoelaceArea(v0: Point, v1: Point, v2: Point)
    ensures SignedArea(v0, v1, v2)
         == (v0.x * v1.y - v1.x * v0.y) + (v1.x * v2.y - v2.x * v1.y) + (v2.x * v0.y - v0.x * v2.y)
    ensures FaceIsCulled(v0, v1, v2)
        <==> (v0.x * v1.y - v1.x * v0.y) + (v1.x * v2.y - v2.x * v1.y) + (v2.x * v0.y - v0.x * v2.y) < 0
  {
  }

  /** The area, and so the decision, does not depend on which vertex comes first. */
  lemma CullRotationInvariant(v0: Point, v1: Point, v2: Point)
    ensures SignedArea(v1, v2, v0) == SignedArea(v0, v1, v2)
    ensures FaceIsCulled(v1, v2, v0) <==> FaceIsCulled(v0, v1, v2)
  {
  }

  /**
   * Reversing the vertex order negates the area, so of a triangle with
   * non-zero area exactly one of the two orders is culled.
   */
  lemma CullReversal(v0: Point, v1: Point, v2: Point)
    ensures SignedArea(v0, v2, v1) == -SignedArea(v0, v1, v2)
    ensures SignedArea(v0, v1, v2) != 0 ==> (FaceIsCulled(v0, v2, v1) <==> !FaceIsCulled(v0, v1, v2))
  {
  }

  /** A triangle with two coincident vertices has zero area and is not culled. */
  lemma DegenerateNotCulled(v0: Point, v1: Point, v2: Point)
    requires v0 == v1 || v1 == v2 || v0 == v2
    ensures SignedArea(v0, v1, v2) == 0
    ensures !FaceIsCulled(v0, v1, v2)
  {
  }
}
