/**
 * The depth-buffer configuration of `common/depth.h`: which of the
 * `DEPTH_8BIT` / `DEPTH_16BIT` build options wins, the width of `depth_t`,
 * and its nearest and furthest values.
 */
module Depth {
  import Macros

  /** The two depth-buffer formats. */
  datatype DepthFormat = Depth8 | Depth16

  /**
   * The format the preprocessor settles on, given whether the build defines
   * `DEPTH_8BIT` and `DEPTH_16BIT`: none or both fall back to 8 bits.
   */
  function ResolveDepth(defines8: bool, defines16: bool): (r: DepthFormat)
    ensures !defines8 && !defines16 ==> r == Depth8
    ensures defines8 && defines16 ==> r == Depth8
    ensures defines8 && !defines16 ==> r == Depth8
    ensures !defines8 && defines16 ==> r == Depth16
  {
    var count := (if defines8 then 1 else 0) + (if defines16 then 1 else 0);
    if count == 0 then Depth8
    else if count > 1 then Depth8
    else if defines8 then Depth8
    else Depth16
  }

  /** The width in bits of `depth_t`: `uint8_t` or `uint16_t`. */
  function DepthBits(f: DepthFormat): nat
  {
    match f
    case Depth8 => 8
    case Depth16 => 16
  }

  /** Whether `d` is a value of the `depth_t` of format `f`. */
  predicate IsDepth(f: DepthFormat, d: nat)
  {
    d < Macros.Pow2(DepthBits(f))
  }

  /** `DEPTH_NEAREST`: the least value of `depth_t`. */
  function Nearest(f: DepthFormat): (r: nat)
    ensures IsDepth(f, r)
    ensures forall d: nat :: IsDepth(f, d) ==> r <= d
  {
    0
  }

  /** `DEPTH_FURTHEST`: the greatest value of `depth_t`. */
  function Furthest(f: DepthFormat): (r: nat)
    ensures IsDepth(f, r)
    ensures forall d: nat :: IsDepth(f, d) ==> d <= r
  {
    assert Macros.Pow2(8) == 0x100 && Macros.Pow2(16) == 0x1_0000;
    match f
    case Depth8 => 0xFF
    case Depth16 => 0xFFFF
  }

  /**
   * `DEPTH_RANGE`: the number of steps from nearest to furthest, one less
   * than the number of values of `depth_t`; every depth lies within the
   * range above `DEPTH_NEAREST`.
   */
  function Range(f: DepthFormat): (r: nat)
    ensures r + 1 == Macros.Pow2(DepthBits(f))
    ensures forall d: nat :: IsDepth(f, d) ==> Nearest(f) <= d <= Nearest(f) + r
  {
    assert Macros.Pow2(8) == 0x100 && Macros.Pow2(16) == 0x1_0000;
    Furthest(f) - Nearest(f)
  }
}
