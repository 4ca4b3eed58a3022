/**
 * `pgl_draw_filled_triangle` in `pgl/pgl.c`: the three fragments are
 * sorted by `y`; the upper half, from `f0` down to `f1`, and the lower
 * half, from `f1` down to `f2`, are each drawn one scanline at a time; a
 * scanline runs over the half-open range `[start_x, end_x)`.
 *
 * The fixed-point arithmetic is not part of this model. Where a scanline
 * meets an edge comes from an `EdgeOracle`, and the colour and depth of a
 * pixel from a `ShadeOracle` (the fragment shader and `depth_map`). The
 * model keeps the control flow: the sort, which scanlines are visited,
 * the ordering of each scanline's ends, and the order of the writes.
 */
module Rasteriser {
  import opened Wrappers
  import opened Raster

  /** `pgl_fragment_t`: texture coordinate and inverse depth (raw fixed-point values), and the pixel. */
  datatype Fragment = Fragment(u: int, v: int, invDepth: int, x: int, y: int)

  /** The fragments of a triangle, in the order the rasteriser holds them. */
  datatype Corners = Corners(f0: Fragment, f1: Fragment, f2: Fragment)

  /** Whether the fragments are in non-decreasing `y` order. */
  predicate SortedByY(c: Corners)
  {
    c.f0.y <= c.f1.y <= c.f2.y
  }

  /** The fragments as a multiset. */
  function Bag(c: Corners): multiset<Fragment>
  {
    multiset{c.f0, c.f1, c.f2}
  }

  /** The three conditional `SWAP`s that open `pgl_draw_filled_triangle`. */
  function SortByY(c: Corners): (r: Corners)
    ensures SortedByY(r)
    ensures Bag(r) == Bag(c)
  {
    var s1 := if c.f0.y > c.f1.y then Corners(c.f1, c.f0, c.f2) else c;
    var s2 := if s1.f1.y > s1.f2.y then Corners(s1.f0, s1.f2, s1.f1) else s1;
    if s2.f0.y > s2.f1.y then Corners(s2.f1, s2.f0, s2.f2) else s2
  }

  /** Sorting fragments that are already in order changes nothing. */
  lemma SortSorted(c: Corners)
    requires SortedByY(c)
    ensures SortByY(c) == c
  {
  }

  /**
   * `Q_TO_INT(q_mul(Q_FROM_INT(steps), q_mul(Q_FROM_INT(dx), q_div(Q_ONE, Q_FROM_INT(ABS(dy))))))`:
   * the `x` offset of an edge `dx` wide and `dy` high after `steps` scanlines.
   */
  type EdgeOracle = (int, int, int) -> int

  /** The offset of the edge from `a` to `b` after `steps` scanlines; a flat edge has slope zero. */
  function Offset(edge: EdgeOracle, a: Fragment, b: Fragment, steps: int): int
  {
    var dy := b.y - a.y;
    if dy != 0 then edge(b.x - a.x, dy, steps) else 0
  }

  /** The upper and the lower half of the triangle. */
  datatype Half = Upper | Lower

  /** One scanline: its half, its row and the half-open range `[startX, endX)`. */
  datatype Span = Span(half: Half, y: int, startX: int, endX: int)

  /** The swap of `start_x` and `end_x` (and the values interpolated with them) when they are out of order. */
  function Ordered(half: Half, y: int, start: int, end: int): (r: Span)
    ensures r.half == half && r.y == y
    ensures r.startX <= r.endX
    ensures (r.startX, r.endX) == (start, end) || (r.startX, r.endX) == (end, start)
  {
    if start > end then Span(half, y, end, start) else Span(half, y, start, end)
  }

  /**
   * The scanline at row `y` of half `half`: the upper half runs from the
   * edge `f0`-`f1` to the edge `f0`-`f2`, the lower half from the edge
   * `f1`-`f2` to the edge `f0`-`f2`.
   */
  function RowSpan(edge: EdgeOracle, c: Corners, half: Half, y: int): (r: Span)
    ensures r.half == half && r.y == y && r.startX <= r.endX
  {
    var endX := c.f0.x + Offset(edge, c.f0, c.f2, y - c.f0.y);
    match half
    case Upper => Ordered(half, y, c.f0.x + Offset(edge, c.f0, c.f1, y - c.f0.y), endX)
    case Lower => Ordered(half, y, c.f1.x + Offset(edge, c.f1, c.f2, y - c.f1.y), endX)
  }

  /** The scanlines of one half, from row `top` to row `bottom` inclusive; none when the half is flat. */
  function HalfSpans(edge: EdgeOracle, c: Corners, half: Half, top: int, bottom: int): (r: seq<Span>)
    requires top <= bottom
    ensures top == bottom ==> r == []
    ensures top < bottom ==> |r| == bottom - top + 1
    ensures forall k :: 0 <= k < |r| ==> r[k] == RowSpan(edge, c, half, top + k)
    ensures AllOrdered(r)
  {
    if top == bottom then [] else seq(bottom - top + 1, k => RowSpan(edge, c, half, top + k))
  }

  /** Every scanline of a sorted triangle, in the order they are drawn. */
  function Spans(edge: EdgeOracle, c: Corners): (r: seq<Span>)
    requires SortedByY(c)
    ensures AllOrdered(r)
  {
    HalfSpans(edge, c, Upper, c.f0.y, c.f1.y) + HalfSpans(edge, c, Lower, c.f1.y, c.f2.y)
  }

  /**
   * A drawn scanline never uses a flat edge: the upper half is drawn only
   * when `f0.y < f1.y` (so both its edges rise) and the lower half only
   * when `f1.y < f2.y`. `Offset`'s value for a flat edge is never drawn.
   */
  lemma DrawnSpansSloped(edge: EdgeOracle, c: Corners)
    requires SortedByY(c)
    ensures forall k :: 0 <= k < |Spans(edge, c)| ==>
      (Spans(edge, c)[k].half == Upper ==> c.f0.y < c.f1.y && c.f0.y < c.f2.y)
    ensures forall k :: 0 <= k < |Spans(edge, c)| ==>
      (Spans(edge, c)[k].half == Lower ==> c.f1.y < c.f2.y && c.f0.y < c.f2.y)
  {
    SpansRows(edge, c);
  }

  /**
   * The scanlines visited: the upper half's rows `f0.y..f1.y` unless
   * `f0.y == f1.y`, then the lower half's rows `f1.y..f2.y` unless
   * `f1.y == f2.y`. Row `f1.y` is visited by both halves when neither is flat.
   */
  lemma SpansRows(edge: EdgeOracle, c: Corners)
    requires SortedByY(c)
    ensures |Spans(edge, c)| == UpperRows(c) + LowerRows(c)
    ensures forall k :: 0 <= k < UpperRows(c) ==> Spans(edge, c)[k] == RowSpan(edge, c, Upper, c.f0.y + k)
    ensures forall k :: UpperRows(c) <= k < |Spans(edge, c)| ==>
              Spans(edge, c)[k] == RowSpan(edge, c, Lower, c.f1.y + (k - UpperRows(c)))
  {
    var upper := HalfSpans(edge, c, Upper, c.f0.y, c.f1.y);
    var lower := HalfSpans(edge, c, Lower, c.f1.y, c.f2.y);
    assert |upper| == UpperRows(c);
    forall k | UpperRows(c) <= k < |Spans(edge, c)|
      ensures Spans(edge, c)[k] == RowSpan(edge, c, Lower, c.f1.y + (k - UpperRows(c)))
    {
      assert Spans(edge, c)[k] == lower[k - |upper|];
    }
  }

  /** The number of scanlines of the upper half: rows `f0.y..f1.y`, none when `f0.y == f1.y`. */
  function UpperRows(c: Corners): nat
    requires SortedByY(c)
  {
    if c.f0.y < c.f1.y then c.f1.y - c.f0.y + 1 else 0
  }

  /** The number of scanlines of the lower half: rows `f1.y..f2.y`, none when `f1.y == f2.y`. */
  function LowerRows(c: Corners): nat
    requires SortedByY(c)
  {
    if c.f1.y < c.f2.y then c.f2.y - c.f1.y + 1 else 0
  }

  /** The colour and depth the shaders compute for a pixel of a half: `pgl_fragment_shader` and `depth_map`. */
  type ShadeOracle = (Half, int, int) -> (Pixel, Pixel)

  /** The sample the x loop computes at `x` on scanline `sp`. */
  function Shade(shade: ShadeOracle, sp: Span, x: int): (r: Sample)
    ensures r.x == x && r.y == sp.y
  {
    var cd := shade(sp.half, x, sp.y);
    Sample(x, sp.y, cd.0, cd.1)
  }

  /** The samples of one scanline, `x` running from `start_x` up to `end_x - 1`. */
  function SpanSamples(shade: ShadeOracle, sp: Span): (r: seq<Sample>)
    requires sp.startX <= sp.endX
    ensures |r| == sp.endX - sp.startX
    ensures forall k :: 0 <= k < |r| ==> r[k] == Shade(shade, sp, sp.startX + k)
  {
    seq(sp.endX - sp.startX, k => Shade(shade, sp, sp.startX + k))
  }

  /** A scanline draws the pixel `(x, sp.y)` exactly when `start_x <= x < end_x`. */
  lemma SpanCoverage(shade: ShadeOracle, sp: Span, x: int)
    requires sp.startX <= sp.endX
    ensures (exists k :: 0 <= k < |SpanSamples(shade, sp)| && SpanSamples(shade, sp)[k].x == x)
        <==> sp.startX <= x < sp.endX
  {
    if sp.startX <= x < sp.endX {
      assert SpanSamples(shade, sp)[x - sp.startX].x == x;
    }
  }

  /** Whether every scanline of `spans` is in order. */
  predicate AllOrdered(spans: seq<Span>)
  {
    forall k :: 0 <= k < |spans| ==> spans[k].startX <= spans[k].endX
  }

  /** The samples of `spans`, scanline after scanline. */
  function AllSamples(shade: ShadeOracle, spans: seq<Span>): (r: seq<Sample>)
    requires AllOrdered(spans)
    decreases |spans|
  {
    if spans == [] then [] else SpanSamples(shade, spans[0]) + AllSamples(shade, spans[1..])
  }

  /** The samples of a triangle, in the order they are drawn. */
  function TriangleSamples(edge: EdgeOracle, shade: ShadeOracle, c: Corners): seq<Sample>
    requires SortedByY(c)
  {
    AllSamples(shade, Spans(edge, c))
  }

  /** Why a triangle could not be drawn. */
  datatype RasterError =
    /** A sample falls outside the framebuffer, where the source reads and writes out of bounds. */
    OffScreen

  /**
   * `pgl_draw_filled_triangle(f0, f1, f2)`: sorts the fragments and draws
   * every scanline, or reports that a sample would fall off the screen.
   */
  function DrawFilledTriangle(fb: Framebuffer, s: Screen, edge: EdgeOracle, shade: ShadeOracle, c: Corners)
    : (r: Result<Framebuffer, RasterError>)
    requires Fits(fb, s)
    ensures r.Ok? <==> AllOnScreen(s, TriangleSamples(edge, shade, SortByY(c)))
    ensures r.Ok? ==> Fits(r.value, s)
  {
    var samples := TriangleSamples(edge, shade, SortByY(c));
    if AllOnScreen(s, samples) then Ok(DrawAll(fb, s, samples)) else Err(OffScreen)
  }

  /** Drawing the same triangle twice gives what drawing it once gave. */
  lemma DrawTriangleTwice(fb: Framebuffer, s: Screen, edge: EdgeOracle, shade: ShadeOracle, c: Corners)
    requires Fits(fb, s)
    requires DrawFilledTriangle(fb, s, edge, shade, c).Ok?
    ensures DrawFilledTriangle(DrawFilledTriangle(fb, s, edge, shade, c).value, s, edge, shade, c)
         == DrawFilledTriangle(fb, s, edge, shade, c)
  {
    DrawAllTwice(fb, s, TriangleSamples(edge, shade, SortByY(c)));
  }

  /**
   * Drawing a triangle never raises a stored depth, and a pixel it changes
   * holds the colour and depth of one of the triangle's samples at it.
   */
  lemma DrawTriangleDiscipline(fb: Framebuffer, s: Screen, edge: EdgeOracle, shade: ShadeOracle, c: Corners,
                               x: int, y: int)
    requires Fits(fb, s) && OnScreen(s, x, y)
    requires DrawFilledTriangle(fb, s, edge, shade, c).Ok?
    ensures var r := DrawFilledTriangle(fb, s, edge, shade, c).value;
      r.depths[y][x] <= fb.depths[y][x]
      && (r.depths[y][x] == fb.depths[y][x] ==> r.colours[y][x] == fb.colours[y][x])
      && (r.depths[y][x] != fb.depths[y][x] ==>
            Sample(x, y, r.colours[y][x], r.depths[y][x]) in TriangleSamples(edge, shade, SortByY(c)))
  {
    DrawAllDiscipline(fb, s, TriangleSamples(edge, shade, SortByY(c)), x, y);
  }

  /** Drawing one more sample after `samples` plots it onto what `samples` left. */
  lemma {:induction false} DrawAllSnoc(fb: Framebuffer, s: Screen, samples: seq<Sample>, p: Sample)
    requires Fits(fb, s) && AllOnScreen(s, samples) && OnScreen(s, p.x, p.y)
    ensures AllOnScreen(s, samples + [p])
    ensures DrawAll(fb, s, samples + [p]) == Plot(DrawAll(fb, s, samples), s, p)
    decreases |samples|
  {
    var all := samples + [p];
    assert AllOnScreen(s, all) by {
      forall k | 0 <= k < |all| ensures OnScreen(s, all[k].x, all[k].y) {
        if k < |samples| { assert all[k] == samples[k]; }
      }
    }
    if samples != [] {
      assert all[0] == samples[0] && all[1..] == samples[1..] + [p];
      assert AllOnScreen(s, samples[1..]) by {
        forall k | 0 <= k < |samples[1..]| ensures OnScreen(s, samples[1..][k].x, samples[1..][k].y) {
          assert samples[1..][k] == samples[k + 1];
        }
      }
      DrawAllSnoc(Plot(fb, s, samples[0]), s, samples[1..], p);
    } else {
      assert all == [p];
    }
  }

  /**
   * The x loop of one scanline, as the source runs it: test and write
   * pixel after pixel from `start_x` up to `end_x - 1`, stopping at the
   * first pixel off the screen.
   */
  method DrawSpan(fb: Framebuffer, s: Screen, shade: ShadeOracle, sp: Span)
    returns (r: Result<Framebuffer, RasterError>)
    requires Fits(fb, s) && sp.startX <= sp.endX
    ensures r.Ok? <==> AllOnScreen(s, SpanSamples(shade, sp))
    ensures r.Ok? ==> r.value == DrawAll(fb, s, SpanSamples(shade, sp))
  {
    ghost var samples := SpanSamples(shade, sp);
    var current := fb;
    var x := sp.startX;
    while x < sp.endX
      invariant sp.startX <= x <= sp.endX
      invariant Fits(current, s)
      invariant AllOnScreen(s, samples[..x - sp.startX])
      invariant current == DrawAll(fb, s, samples[..x - sp.startX])
    {
      var p := Shade(shade, sp, x);
      assert samples[x - sp.startX] == p;
      if !OnScreen(s, x, sp.y) {
        return Err(OffScreen);
      }
      DrawAllSnoc(fb, s, samples[..x - sp.startX], p);
      assert samples[..x + 1 - sp.startX] == samples[..x - sp.startX] + [p];
      if DepthTestPassed(current, s, x, sp.y, p.depth) {
        current := Framebuffer(Store(current.colours, s, x, sp.y, p.colour),
                               Store(current.depths, s, x, sp.y, p.depth));
      }
      x := x + 1;
    }
    assert samples[..x - sp.startX] == samples;
    r := Ok(current);
  }
}
