/**
 * The framebuffer of `pgl/pgl.c` and the write discipline of its
 * rasteriser: the strict LESS depth test (`pgl_depth_test_passed`) and the
 * conditional write of colour and depth at the heart of the x loops of
 * `pgl_draw_filled_triangle`.
 *
 * A stored colour (`colour_t`) or depth (`depth_t`) is 8 or 16 bits wide
 * depending on the build; both are held here as their unsigned values. A drawn
 * point is a `Sample`: its pixel and the colour and depth the shaders
 * computed for it.
 */
module Raster {
  import Depth

  /** A stored `colour_t` or `depth_t`, as its unsigned value. */
  type Pixel = nat

  /** `SCREEN_WIDTH` and `SCREEN_HEIGHT`, which the build supplies. */
  datatype Screen = Screen(width: nat, height: nat)

  /** `pgl_framebuffer_t`: `colours[y][x]` and `depths[y][x]`. */
  datatype Framebuffer = Framebuffer(colours: seq<seq<Pixel>>, depths: seq<seq<Pixel>>)

  /** Whether `rows` is a `height` by `width` array. */
  predicate Shaped(rows: seq<seq<Pixel>>, s: Screen)
  {
    |rows| == s.height && forall y :: 0 <= y < |rows| ==> |rows[y]| == s.width
  }

  /** Whether both planes of `fb` have the screen's dimensions. */
  predicate Fits(fb: Framebuffer, s: Screen)
  {
    Shaped(fb.colours, s) && Shaped(fb.depths, s)
  }

  /** Whether the pixel `(x, y)` is on the screen. */
  predicate OnScreen(s: Screen, x: int, y: int)
  {
    0 <= x < s.width && 0 <= y < s.height
  }

  /** `rows[y][x] = v`. */
  function Store(rows: seq<seq<Pixel>>, s: Screen, x: int, y: int, v: Pixel): (r: seq<seq<Pixel>>)
    requires Shaped(rows, s) && OnScreen(s, x, y)
    ensures Shaped(r, s)
    ensures r[y][x] == v
    ensures forall j, i :: 0 <= j < s.height && 0 <= i < s.width && (j != y || i != x) ==> r[j][i] == rows[j][i]
  {
    var row: seq<Pixel> := rows[y][x := v];
    rows[y := row]
  }

  /** `pgl_depth_test_passed`: LESS, so an equal depth fails. */
  predicate DepthTestPassed(fb: Framebuffer, s: Screen, x: int, y: int, depth: Pixel)
    requires Fits(fb, s) && OnScreen(s, x, y)
  {
    depth < fb.depths[y][x]
  }

  /** A shaded point: its pixel and the colour and depth computed for it. */
  datatype Sample = Sample(x: int, y: int, colour: Pixel, depth: Pixel)

  /** Whether every sample of `samples` lies on the screen. */
  predicate AllOnScreen(s: Screen, samples: seq<Sample>)
  {
    forall k :: 0 <= k < |samples| ==> OnScreen(s, samples[k].x, samples[k].y)
  }

  /**
   * One turn of an x loop (`pgl/pgl.c`, the depth test and the two writes):
   * colour and depth are written together, and only when the test passes.
   */
  function Plot(fb: Framebuffer, s: Screen, p: Sample): (r: Framebuffer)
    requires Fits(fb, s) && OnScreen(s, p.x, p.y)
    ensures Fits(r, s)
    ensures DepthTestPassed(fb, s, p.x, p.y, p.depth) ==>
              r.colours[p.y][p.x] == p.colour && r.depths[p.y][p.x] == p.depth
    ensures !DepthTestPassed(fb, s, p.x, p.y, p.depth) ==> r == fb
    ensures forall j, i :: 0 <= j < s.height && 0 <= i < s.width && (j != p.y || i != p.x) ==>
              r.colours[j][i] == fb.colours[j][i] && r.depths[j][i] == fb.depths[j][i]
  {
    if DepthTestPassed(fb, s, p.x, p.y, p.depth) then
      Framebuffer(Store(fb.colours, s, p.x, p.y, p.colour), Store(fb.depths, s, p.x, p.y, p.depth))
    else
      fb
  }

  /**
   * The LESS test orders depths strictly: the stored depth itself fails,
   * anything nearer than a passing depth passes too, and a depth passes
   * exactly when plotting it changes the stored depth.
   */
  lemma DepthTestOrder(fb: Framebuffer, s: Screen, x: int, y: int, colour: Pixel, d: Pixel, e: Pixel)
    requires Fits(fb, s) && OnScreen(s, x, y)
    ensures !DepthTestPassed(fb, s, x, y, fb.depths[y][x])
    ensures DepthTestPassed(fb, s, x, y, d) && e <= d ==> DepthTestPassed(fb, s, x, y, e)
    ensures DepthTestPassed(fb, s, x, y, d) <==> Plot(fb, s, Sample(x, y, colour, d)).depths[y][x] != fb.depths[y][x]
  {
  }

  /** Plotting the same sample a second time changes nothing. */
  lemma PlotTwice(fb: Framebuffer, s: Screen, p: Sample)
    requires Fits(fb, s) && OnScreen(s, p.x, p.y)
    ensures Plot(Plot(fb, s, p), s, p) == Plot(fb, s, p)
  {
  }

  /** The samples plotted in order. */
  function DrawAll(fb: Framebuffer, s: Screen, samples: seq<Sample>): (r: Framebuffer)
    requires Fits(fb, s) && AllOnScreen(s, samples)
    ensures Fits(r, s)
    decreases |samples|
  {
    if samples == [] then fb else DrawAll(Plot(fb, s, samples[0]), s, samples[1..])
  }

  // ------------------------------------------------------------------
  // What one pixel ends up holding, stated without the loop

  /** The samples of `samples` that fall on the pixel `(x, y)`, in order. */
  function At(samples: seq<Sample>, x: int, y: int): (r: seq<Sample>)
    ensures |r| <= |samples|
    ensures forall k :: 0 <= k < |r| ==> r[k].x == x && r[k].y == y
    ensures forall k :: 0 <= k < |samples| && samples[k].x == x && samples[k].y == y ==> samples[k] in r
    ensures forall k :: 0 <= k < |r| ==> r[k] in samples
  {
    if samples == [] then []
    else
      var rest := At(samples[1..], x, y);
      if samples[0].x == x && samples[0].y == y then [samples[0]] + rest else rest
  }

  /** The least of `d` and the depths of `samples`. */
  function Least(d: Pixel, samples: seq<Sample>): (r: Pixel)
    ensures r <= d
    ensures forall k :: 0 <= k < |samples| ==> r <= samples[k].depth
    ensures r == d || exists k :: 0 <= k < |samples| && r == samples[k].depth
  {
    if samples == [] then d
    else
      var m := Least(d, samples[1..]);
      assert forall k :: 1 <= k < |samples| ==> samples[k] == samples[1..][k - 1];
      if samples[0].depth < m then samples[0].depth else m
  }

  /** The colour of the first of `samples` whose depth is `d`, or `c` when there is none. */
  function FirstColour(c: Pixel, samples: seq<Sample>, d: Pixel): Pixel
  {
    if samples == [] then c
    else if samples[0].depth == d then samples[0].colour
    else FirstColour(c, samples[1..], d)
  }

  /**
   * What a pixel holding `(c, d)` holds after `samples` are plotted: the
   * nearest of them, the first one at that depth, wins when it is nearer
   * than `d`; otherwise the pixel keeps `(c, d)`.
   */
  function Expected(c: Pixel, d: Pixel, samples: seq<Sample>): (Pixel, Pixel)
  {
    var m := Least(d, samples);
    if m < d then (FirstColour(c, samples, m), m) else (c, d)
  }

  /**
   * Plotting a sequence of samples leaves every pixel holding the nearest
   * sample that fell on it, when that is nearer than what it held.
   */
  lemma {:induction false} DrawAllPixel(fb: Framebuffer, s: Screen, samples: seq<Sample>, x: int, y: int)
    requires Fits(fb, s) && AllOnScreen(s, samples) && OnScreen(s, x, y)
    ensures var r := DrawAll(fb, s, samples);
      (r.colours[y][x], r.depths[y][x]) == Expected(fb.colours[y][x], fb.depths[y][x], At(samples, x, y))
    decreases |samples|
  {
    if samples != [] {
      var p := samples[0];
      var fb1 := Plot(fb, s, p);
      assert AllOnScreen(s, samples[1..]) by {
        forall k | 0 <= k < |samples[1..]| ensures OnScreen(s, samples[1..][k].x, samples[1..][k].y) {
          assert samples[1..][k] == samples[k + 1];
        }
      }
      DrawAllPixel(fb1, s, samples[1..], x, y);
      var rest := At(samples[1..], x, y);
      var c, d := fb.colours[y][x], fb.depths[y][x];
      if p.x == x && p.y == y {
        assert At(samples, x, y) == [p] + rest;
        ExpectedCons(c, d, p, rest);
      } else {
        assert At(samples, x, y) == rest;
      }
    }
  }

  /** `Expected` after one more sample in front, in terms of `Plot`'s outcome. */
  lemma ExpectedCons(c: Pixel, d: Pixel, p: Sample, rest: seq<Sample>)
    ensures p.depth < d ==> Expected(c, d, [p] + rest) == Expected(p.colour, p.depth, rest)
    ensures !(p.depth < d) ==> Expected(c, d, [p] + rest) == Expected(c, d, rest)
  {
    var all := [p] + rest;
    assert all[0] == p && all[1..] == rest;
    var m := Least(d, rest);
    if p.depth < d {
      LeastBelow(p.depth, d, rest);
      if m < p.depth {
        FirstColourFound(c, p.colour, rest, m);
      }
    } else {
      assert Least(d, all) == m;
    }
  }

  /** Lowering the starting depth to `e` lowers the least depth to `e` or keeps it when below `e`. */
  lemma {:induction false} LeastBelow(e: Pixel, d: Pixel, samples: seq<Sample>)
    requires e < d
    ensures Least(e, samples) == (if Least(d, samples) < e then Least(d, samples) else e)
    decreases |samples|
  {
    if samples != [] {
      LeastBelow(e, d, samples[1..]);
    }
  }

  /** When some sample has depth `m`, the fallback colour of `FirstColour` is never used. */
  lemma {:induction false} FirstColourFound(c1: Pixel, c2: Pixel, samples: seq<Sample>, m: Pixel)
    requires exists k :: 0 <= k < |samples| && samples[k].depth == m
    ensures FirstColour(c1, samples, m) == FirstColour(c2, samples, m)
    decreases |samples|
  {
    if samples[0].depth != m {
      var k :| 0 <= k < |samples| && samples[k].depth == m;
      assert samples[1..][k - 1] == samples[k];
      FirstColourFound(c1, c2, samples[1..], m);
    }
  }

  /** When some sample has depth `m`, `FirstColour` is the colour of one such sample. */
  lemma {:induction false} FirstColourOf(c: Pixel, samples: seq<Sample>, m: Pixel) returns (k: nat)
    requires exists j :: 0 <= j < |samples| && samples[j].depth == m
    ensures k < |samples| && samples[k].depth == m && samples[k].colour == FirstColour(c, samples, m)
    decreases |samples|
  {
    if samples[0].depth == m {
      k := 0;
    } else {
      var j :| 0 <= j < |samples| && samples[j].depth == m;
      assert samples[1..][j - 1] == samples[j];
      var k' := FirstColourOf(c, samples[1..], m);
      k := k' + 1;
    }
  }

  /** A depth at or below every sample's is the least already. */
  lemma {:induction false} LeastStable(d: Pixel, samples: seq<Sample>)
    requires forall k :: 0 <= k < |samples| ==> d <= samples[k].depth
    ensures Least(d, samples) == d
    decreases |samples|
  {
    if samples != [] {
      LeastStable(d, samples[1..]);
    }
  }

  /**
   * The write discipline, pixel by pixel: stored depths never increase;
   * a pixel whose depth is unchanged keeps its colour; a pixel that changed
   * holds the colour and depth of a sample drawn at it; and no sample drawn
   * at a pixel is nearer than what the pixel ends up holding.
   */
  lemma DrawAllDiscipline(fb: Framebuffer, s: Screen, samples: seq<Sample>, x: int, y: int)
    requires Fits(fb, s) && AllOnScreen(s, samples) && OnScreen(s, x, y)
    ensures DrawAll(fb, s, samples).depths[y][x] <= fb.depths[y][x]
    ensures DrawAll(fb, s, samples).depths[y][x] == fb.depths[y][x] ==>
              DrawAll(fb, s, samples).colours[y][x] == fb.colours[y][x]
    ensures DrawAll(fb, s, samples).depths[y][x] != fb.depths[y][x] ==>
              Sample(x, y, DrawAll(fb, s, samples).colours[y][x], DrawAll(fb, s, samples).depths[y][x]) in samples
    ensures forall k :: 0 <= k < |samples| && samples[k].x == x && samples[k].y == y ==>
              DrawAll(fb, s, samples).depths[y][x] <= samples[k].depth
  {
    var r := DrawAll(fb, s, samples);
    var here := At(samples, x, y);
    DrawAllPixel(fb, s, samples, x, y);
    var m := Least(fb.depths[y][x], here);
    if m < fb.depths[y][x] {
      var k := FirstColourOf(fb.colours[y][x], here, m);
      assert here[k] == Sample(x, y, r.colours[y][x], r.depths[y][x]);
    }
  }

  /** Two framebuffers of the same screen that agree on every pixel are equal. */
  lemma FramebufferExt(a: Framebuffer, b: Framebuffer, s: Screen)
    requires Fits(a, s) && Fits(b, s)
    requires forall y, x :: OnScreen(s, x, y) ==>
               a.colours[y][x] == b.colours[y][x] && a.depths[y][x] == b.depths[y][x]
    ensures a == b
  {
    forall y | 0 <= y < s.height
      ensures a.colours[y] == b.colours[y] && a.depths[y] == b.depths[y]
    {
      assert forall x :: 0 <= x < s.width ==> OnScreen(s, x, y);
    }
  }

  /** Drawing the same samples a second time changes nothing. */
  lemma DrawAllTwice(fb: Framebuffer, s: Screen, samples: seq<Sample>)
    requires Fits(fb, s) && AllOnScreen(s, samples)
    ensures DrawAll(DrawAll(fb, s, samples), s, samples) == DrawAll(fb, s, samples)
  {
    var once := DrawAll(fb, s, samples);
    var twice := DrawAll(once, s, samples);
    forall y, x | OnScreen(s, x, y)
      ensures twice.colours[y][x] == once.colours[y][x] && twice.depths[y][x] == once.depths[y][x]
    {
      DrawAllPixel(fb, s, samples, x, y);
      DrawAllPixel(once, s, samples, x, y);
      LeastStable(once.depths[y][x], At(samples, x, y));
    }
    FramebufferExt(twice, once, s);
  }

  /**
   * Against a pixel cleared to `DEPTH_FURTHEST`, every depth nearer than
   * that passes the test and `DEPTH_FURTHEST` itself fails it.
   */
  lemma ClearedDepthTest(fb: Framebuffer, s: Screen, f: Depth.DepthFormat, x: int, y: int, depth: Pixel)
    requires Fits(fb, s) && OnScreen(s, x, y) && fb.depths[y][x] == Depth.Furthest(f)
    requires Depth.IsDepth(f, depth)
    ensures DepthTestPassed(fb, s, x, y, depth) <==> depth != Depth.Furthest(f)
  {
  }
}
