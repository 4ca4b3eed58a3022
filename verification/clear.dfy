/**
 * `pgl_clear` (`pgl/pgl.c`): the colour and depth buffers are filled a
 * 32-bit word at a time, through a `uint32_t` view of the row-major
 * `[SCREEN_HEIGHT][SCREEN_WIDTH]` arrays. Each word holds four 8-bit or two
 * 16-bit pixels, lowest lane first (a little-endian target), and the fill
 * value replicates the clear value into every lane.
 */
module Clear {
  import Macros
  import Colour
  import Depth
  import opened Raster

  /** `PGL_COLOUR_BUFFER_BIT`. */
  const ColourBufferBit: bv32 := 0x1
  /** `PGL_DEPTH_BUFFER_BIT`. */
  const DepthBufferBit: bv32 := 0x2

  /** How pixels pack into a 32-bit word: four bytes or two half-words. */
  datatype Packing = FourLanes | TwoLanes

  /** The number of pixels a word holds. */
  function LaneCount(k: Packing): (r: nat)
    ensures r == 2 || r == 4
  {
    match k
    case FourLanes => 4
    case TwoLanes => 2
  }

  /** The packing of the colour buffer: RGB332 pixels are bytes, RGB565 ones half-words. */
  function ColourPacking(f: Colour.ColourFormat): (r: Packing)
    ensures r.FourLanes? <==> Colour.ColourBits(f) == 8
  {
    match f
    case Rgb332 => FourLanes
    case Rgb565 => TwoLanes
  }

  /** The packing of the depth buffer: 8-bit depths are bytes, 16-bit ones half-words. */
  function DepthPacking(f: Depth.DepthFormat): (r: Packing)
    ensures r.FourLanes? <==> Depth.DepthBits(f) == 8
  {
    match f
    case Depth8 => FourLanes
    case Depth16 => TwoLanes
  }

  /** The bits `8 * j` to `8 * j + 7` of a word. */
  function Byte(w: bv32, shift: bv5): bv16
  {
    ((w >> shift) & 0xFF) as bv16
  }

  /** The low half-word. */
  function Low16(w: bv32): bv16
  {
    (w & 0xFFFF) as bv16
  }

  /** The high half-word. */
  function High16(w: bv32): bv16
  {
    ((w >> 16) & 0xFFFF) as bv16
  }

  /** Lane `j` of a word: the pixel it stores at the `j`-th address. */
  function Lane(k: Packing, w: bv32, j: nat): bv16
    requires j < LaneCount(k)
  {
    match k
    case FourLanes =>
      if j == 0 then Byte(w, 0) else if j == 1 then Byte(w, 8)
      else if j == 2 then Byte(w, 16) else Byte(w, 24)
    case TwoLanes =>
      if j == 0 then Low16(w) else High16(w)
  }

  /** Whether `c` fits one lane of the packing. */
  predicate FitsLane(k: Packing, c: bv16)
  {
    k.FourLanes? ==> c <= 0xFF
  }

  /** `(c << 24) | (c << 16) | (c << 8) | c`. */
  function Replicate8(c: bv16): bv32
  {
    var w := c as bv32;
    (w << 24) | (w << 16) | (w << 8) | w
  }

  /** `(c << 16) | c`. */
  function Replicate16(c: bv16): bv32
  {
    var w := c as bv32;
    (w << 16) | w
  }

  /** Every byte of the replicated word of a byte `c` is `c`. */
  lemma Replicate8Lanes(c: bv16)
    requires c <= 0xFF
    ensures Byte(Replicate8(c), 0) == c && Byte(Replicate8(c), 8) == c
    ensures Byte(Replicate8(c), 16) == c && Byte(Replicate8(c), 24) == c
  {
  }

  /** Both half-words of the replicated word of `c` are `c`. */
  lemma Replicate16Lanes(c: bv16)
    ensures Low16(Replicate16(c)) == c && High16(Replicate16(c)) == c
  {
  }

  /**
   * The fill word of `pgl_clear`. The shifts are evaluated in C's `int`
   * and converted to `uint32_t`, which gives the same 32 bits.
   */
  function Replicate(k: Packing, c: bv16): (r: bv32)
    requires FitsLane(k, c)
    ensures forall j :: 0 <= j < LaneCount(k) ==> Lane(k, r, j) == c
  {
    match k
    case FourLanes => Replicate8Lanes(c); Replicate8(c)
    case TwoLanes => Replicate16Lanes(c); Replicate16(c)
  }

  // ------------------------------------------------------------------
  // The word view of a plane

  /** A plane's cells in memory order: row after row. */
  function Flatten(rows: seq<seq<Pixel>>): seq<Pixel>
  {
    if rows == [] then [] else rows[0] + Flatten(rows[1..])
  }

  /** The memory index of the first pixel of row `y`, rows being `width` cells long. */
  function RowStart(width: nat, y: nat): nat
  {
    if y == 0 then 0 else RowStart(width, y - 1) + width
  }

  /** The memory index of pixel `(x, y)`. */
  function Address(s: Screen, x: nat, y: nat): nat
  {
    RowStart(s.width, y) + x
  }

  /** The number of cells of a plane. */
  function Area(s: Screen): nat
  {
    RowStart(s.width, s.height)
  }

  /** Rows start in order: row `y` ends no later than row `z` starts, for `y < z`. */
  lemma {:induction false} RowStartMonotone(width: nat, y: nat, z: nat)
    requires y < z
    ensures RowStart(width, y) + width <= RowStart(width, z)
    decreases z
  {
    if y < z - 1 {
      RowStartMonotone(width, y, z - 1);
    }
  }

  /** The area is `height * width`. */
  lemma {:induction false} AreaProduct(s: Screen)
    ensures Area(s) == s.height * s.width
    decreases s.height
  {
    if s.height > 0 {
      AreaProduct(Screen(s.width, s.height - 1));
    }
  }

  /** Every row ends inside the plane. */
  lemma RowsFit(s: Screen)
    ensures forall y :: 0 <= y < s.height ==> RowStart(s.width, y) + s.width <= Area(s)
  {
    forall y | 0 <= y < s.height ensures RowStart(s.width, y) + s.width <= Area(s) {
      RowStartMonotone(s.width, y, s.height);
    }
  }

  /** The rows of a plane given in memory order. */
  function Unflatten(cells: seq<Pixel>, s: Screen): (r: seq<seq<Pixel>>)
    requires |cells| == Area(s)
    ensures Shaped(r, s)
    ensures forall y, x :: 0 <= y < s.height && 0 <= x < s.width ==>
      Address(s, x, y) < |cells| && r[y][x] == cells[Address(s, x, y)]
  {
    RowsFit(s);
    seq(s.height, y requires 0 <= y < s.height =>
      cells[RowStart(s.width, y)..RowStart(s.width, y) + s.width])
  }

  /** A shaped plane has `Area` cells. */
  lemma {:induction false} FlattenLength(rows: seq<seq<Pixel>>, s: Screen)
    requires Shaped(rows, s)
    ensures |Flatten(rows)| == Area(s)
    decreases |rows|
  {
    if rows != [] {
      FlattenLength(rows[1..], Screen(s.width, s.height - 1));
    }
  }

  /** In memory, pixel `(x, y)` of a shaped plane sits at its address. */
  lemma {:induction false} FlattenAt(rows: seq<seq<Pixel>>, s: Screen, x: nat, y: nat)
    requires Shaped(rows, s) && x < s.width && y < s.height
    ensures Address(s, x, y) < |Flatten(rows)| && Flatten(rows)[Address(s, x, y)] == rows[y][x]
    decreases y
  {
    FlattenLength(rows, s);
    var rest := Screen(s.width, s.height - 1);
    assert Flatten(rows) == rows[0] + Flatten(rows[1..]);
    if y > 0 {
      assert Shaped(rows[1..], rest) by {
        forall j | 0 <= j < |rows[1..]| ensures |rows[1..][j]| == s.width {
          assert rows[1..][j] == rows[j + 1];
        }
      }
      FlattenAt(rows[1..], rest, x, y - 1);
      assert Address(s, x, y) == s.width + Address(rest, x, y - 1);
      assert rows[1..][y - 1] == rows[y];
    }
  }

  /** Every pixel of a shaped plane sits at its address in memory. */
  lemma FlattenIndex(rows: seq<seq<Pixel>>, s: Screen)
    requires Shaped(rows, s)
    ensures |Flatten(rows)| == Area(s)
    ensures forall y, x :: 0 <= y < s.height && 0 <= x < s.width ==>
      Address(s, x, y) < |Flatten(rows)| && Flatten(rows)[Address(s, x, y)] == rows[y][x]
  {
    FlattenLength(rows, s);
    forall y, x | 0 <= y < s.height && 0 <= x < s.width
      ensures Address(s, x, y) < |Flatten(rows)| && Flatten(rows)[Address(s, x, y)] == rows[y][x]
    {
      FlattenAt(rows, s, x, y);
    }
  }

  /** Reading a plane's memory back as rows gives the plane. */
  lemma UnflattenFlatten(rows: seq<seq<Pixel>>, s: Screen)
    requires Shaped(rows, s)
    ensures |Flatten(rows)| == Area(s)
    ensures Unflatten(Flatten(rows), s) == rows
  {
    FlattenIndex(rows, s);
    var back := Unflatten(Flatten(rows), s);
    forall y | 0 <= y < s.height ensures back[y] == rows[y] {
      assert forall x :: 0 <= x < s.width ==> back[y][x] == rows[y][x];
    }
  }

  // ------------------------------------------------------------------
  // Filling

  /** The cells `count` words cover: `(cells / lanes) * lanes`. */
  function Covered(cells: nat, k: Packing): (r: nat)
    ensures r <= cells && cells - r < LaneCount(k)
    ensures cells % LaneCount(k) == 0 ==> r == cells
  {
    match k
    case FourLanes => cells / 4 * 4
    case TwoLanes => cells / 2 * 2
  }

  /**
   * `buffer[i] = w` with `p = i * lanes`: lane `j` of the word lands on
   * cell `p + j`, and no other cell changes.
   */
  function StoreWord(cells: seq<Pixel>, p: nat, k: Packing, w: bv32): (r: seq<Pixel>)
    requires p + LaneCount(k) <= |cells|
    ensures |r| == |cells|
    ensures forall j :: 0 <= j < LaneCount(k) ==> r[p + j] == Lane(k, w, j) as int
    ensures forall a :: 0 <= a < |cells| && !(p <= a < p + LaneCount(k)) ==> r[a] == cells[a]
  {
    cells[..p] + seq(LaneCount(k), j requires 0 <= j < LaneCount(k) => Lane(k, w, j) as int)
      + cells[p + LaneCount(k)..]
  }

  /** What filling leaves in memory: `c` up to the covered cells, the old contents after. */
  function Filled(cells: seq<Pixel>, k: Packing, c: bv16): (r: seq<Pixel>)
    ensures |r| == |cells|
  {
    seq(|cells|, a requires 0 <= a < |cells| => if a < Covered(|cells|, k) then c as int else cells[a])
  }

  /**
   * The loop `for (i = 0; i < count; ++i) buffer[i] = value;` with
   * `count = cells / lanes` and `value` the replicated clear value.
   */
  method FillWords(cells: seq<Pixel>, k: Packing, c: bv16) returns (r: seq<Pixel>)
    requires FitsLane(k, c)
    ensures r == Filled(cells, k, c)
  {
    var lanes := LaneCount(k);
    var count := |cells| / lanes;
    var value := Replicate(k, c);
    r := cells;
    var i, p := 0, 0;
    while i < count
      invariant i <= count
      invariant k.FourLanes? ==> lanes == 4 && count == |cells| / 4 && p == 4 * i
      invariant k.TwoLanes? ==> lanes == 2 && count == |cells| / 2 && p == 2 * i
      invariant |r| == |cells|
      invariant forall a :: 0 <= a < p ==> r[a] == c as int
      invariant forall a :: p <= a < |cells| ==> r[a] == cells[a]
    {
      r := StoreWord(r, p, k, value);
      i, p := i + 1, p + lanes;
    }
    assert p == Covered(|cells|, k);
  }

  // ------------------------------------------------------------------
  // Clearing

  /**
   * A plane after clearing to `c`: every pixel whose address the words
   * cover holds `c`, and the rest keep their values.
   */
  function ClearedPlane(rows: seq<seq<Pixel>>, s: Screen, k: Packing, c: bv16): (r: seq<seq<Pixel>>)
    requires Shaped(rows, s)
    ensures Shaped(r, s)
  {
    var v: Pixel := c as int;
    var covered := Covered(Area(s), k);
    seq(s.height, y requires 0 <= y < s.height =>
      seq(s.width, x requires 0 <= x < s.width =>
        if Address(s, x, y) < covered then v else rows[y][x]))
  }

  /** Clearing one plane through its word view. */
  method ClearPlane(rows: seq<seq<Pixel>>, s: Screen, k: Packing, c: bv16) returns (r: seq<seq<Pixel>>)
    requires Shaped(rows, s) && FitsLane(k, c)
    ensures r == ClearedPlane(rows, s, k, c)
  {
    var cells := Flatten(rows);
    FlattenIndex(rows, s);
    var filled := FillWords(cells, k, c);
    r := Unflatten(filled, s);
    var expected := ClearedPlane(rows, s, k, c);
    forall y | 0 <= y < s.height ensures r[y] == expected[y] {
      assert forall x :: 0 <= x < s.width ==> r[y][x] == expected[y][x];
    }
  }

  /** `pgl_clear(bits)` with the context's clear colour and clear depth. */
  method ClearBuffers(fb: Framebuffer, s: Screen, cf: Colour.ColourFormat, df: Depth.DepthFormat,
                      bits: bv32, colour: bv16, depth: bv16) returns (r: Framebuffer)
    requires Fits(fb, s)
    requires FitsLane(ColourPacking(cf), colour) && FitsLane(DepthPacking(df), depth)
    ensures Fits(r, s)
    ensures r.colours == if bits & ColourBufferBit != 0
      then ClearedPlane(fb.colours, s, ColourPacking(cf), colour) else fb.colours
    ensures r.depths == if bits & DepthBufferBit != 0
      then ClearedPlane(fb.depths, s, DepthPacking(df), depth) else fb.depths
  {
    r := fb;
    if bits & ColourBufferBit != 0 {
      var colours := ClearPlane(fb.colours, s, ColourPacking(cf), colour);
      r := r.(colours := colours);
    }
    if bits & DepthBufferBit != 0 {
      var depths := ClearPlane(fb.depths, s, DepthPacking(df), depth);
      r := r.(depths := depths);
    }
  }

  /** When the pixel count is a multiple of four, the words cover every cell. */
  lemma WholeCovered(s: Screen, k: Packing)
    requires (s.width * s.height) % 4 == 0
    ensures Covered(Area(s), k) == Area(s)
  {
    AreaProduct(s);
    var n := s.height * s.width;
    assert n % 4 == 0;
    assert n % LaneCount(k) == 0;
  }

  /**
   * When the pixel count is a multiple of four, as `swapchain/swapchain.h`
   * requires, the words cover the whole plane: every pixel is cleared.
   */
  lemma ClearWholePlane(rows: seq<seq<Pixel>>, s: Screen, k: Packing, c: bv16)
    requires Shaped(rows, s) && (s.width * s.height) % 4 == 0
    ensures forall y, x :: 0 <= y < s.height && 0 <= x < s.width ==>
      ClearedPlane(rows, s, k, c)[y][x] == c as int
  {
    WholeCovered(s, k);
    forall y, x | 0 <= y < s.height && 0 <= x < s.width
      ensures ClearedPlane(rows, s, k, c)[y][x] == c as int
    {
      RowStartMonotone(s.width, y, s.height);
    }
  }

  /**
   * When the pixel count is not a multiple of the lane count, the last
   * pixel lies past the last whole word and keeps its old value.
   */
  lemma ClearLeavesLastPixel(rows: seq<seq<Pixel>>, s: Screen, k: Packing, c: bv16)
    requires Shaped(rows, s) && s.width > 0 && s.height > 0
    requires Area(s) % LaneCount(k) != 0
    ensures ClearedPlane(rows, s, k, c)[s.height - 1][s.width - 1] == rows[s.height - 1][s.width - 1]
  {
    assert Address(s, s.width - 1, s.height - 1) == Area(s) - 1;
  }

  /** `DEPTH_FURTHEST` as a clear value. */
  function FurthestValue(f: Depth.DepthFormat): (r: bv16)
    ensures r as int == Depth.Furthest(f)
    ensures FitsLane(DepthPacking(f), r)
  {
    match f
    case Depth8 => 0xFF
    case Depth16 => 0xFFFF
  }

  /**
   * After clearing the depth buffer to `DEPTH_FURTHEST` over a whole
   * screen, every depth nearer than that passes the test everywhere.
   */
  lemma ClearedDepthsPass(fb: Framebuffer, s: Screen, f: Depth.DepthFormat, x: int, y: int, depth: Pixel)
    requires Fits(fb, s) && (s.width * s.height) % 4 == 0 && OnScreen(s, x, y)
    requires Depth.IsDepth(f, depth)
    ensures var cleared := fb.(depths := ClearedPlane(fb.depths, s, DepthPacking(f), FurthestValue(f)));
      Fits(cleared, s) && (DepthTestPassed(cleared, s, x, y, depth) <==> depth != Depth.Furthest(f))
  {
    var cleared := fb.(depths := ClearedPlane(fb.depths, s, DepthPacking(f), FurthestValue(f)));
    ClearWholePlane(fb.depths, s, DepthPacking(f), FurthestValue(f));
    ClearedDepthTest(cleared, s, f, x, y, depth);
  }

  /** Clearing twice to the same value is clearing once. */
  lemma ClearPlaneTwice(rows: seq<seq<Pixel>>, s: Screen, k: Packing, c: bv16)
    requires Shaped(rows, s)
    ensures ClearedPlane(ClearedPlane(rows, s, k, c), s, k, c) == ClearedPlane(rows, s, k, c)
  {
    var once := ClearedPlane(rows, s, k, c);
    var twice := ClearedPlane(once, s, k, c);
    forall y | 0 <= y < s.height ensures twice[y] == once[y] {
      assert forall x :: 0 <= x < s.width ==> twice[y][x] == once[y][x];
    }
  }
}
