/**
 * The integer and bit helpers of `common/macros.h`.
 *
 * The C macros are type-generic; the model fixes the width the engine uses
 * them at: `uint32_t` (as `bv32`) for the power-of-two and bit macros,
 * `uint16_t` (as `bv16`) for the alignment macros, and `int32_t` for the
 * signed arithmetic ones.
 */
module Macros {

  const MinInt32: int := -0x8000_0000
  const MaxInt32: int := 0x7FFF_FFFF

  /** The values of C's `int32_t`. */
  type Int32 = x: int | MinInt32 <= x <= MaxInt32

  /** Two's-complement wrap-around of an arbitrary integer into `int32_t`. */
  function Wrap32(x: int): (r: Int32)
    ensures MinInt32 <= x <= MaxInt32 ==> r == x
    ensures (r - x) % 0x1_0000_0000 == 0
  {
    (x - MinInt32) % 0x1_0000_0000 + MinInt32
  }

  // ------------------------------------------------------------------
  // Bits

  /** A bit position of a `uint32_t`; `BIT(n)` is undefined in C for `n >= 32`. */
  type BitIndex = bv5

  /** `BIT(n)`: `1u << n`. */
  function Bit(n: BitIndex): (r: bv32)
    ensures r != 0 && r & (r - 1) == 0
  {
    1 << n
  }

  /** `CHECK_BIT(x, n)`: whether bit `n` of `x` is set. */
  predicate CheckBit(x: bv32, n: BitIndex)
  {
    x & Bit(n) != 0
  }

  /** `CHECK_BIT` reads bit `n`: the low bit of `x >> n`. */
  lemma CheckBitShift(x: bv32, n: BitIndex)
    ensures CheckBit(x, n) <==> (x >> n) & 1 == 1
  {
  }

  /** `SET_BIT(x, n)`: the new value of `x` after `x |= BIT(n)`. */
  function SetBit(x: bv32, n: BitIndex): (r: bv32)
    ensures CheckBit(r, n)
    ensures r & !Bit(n) == x & !Bit(n)
  {
    x | Bit(n)
  }

  /** `CLEAR_BIT(x, n)`: the new value of `x` after `x &= ~BIT(n)`. */
  function ClearBit(x: bv32, n: BitIndex): (r: bv32)
    ensures !CheckBit(r, n)
    ensures r & !Bit(n) == x & !Bit(n)
  {
    x & !Bit(n)
  }

  /** `TOGGLE_BIT(x, n)`: the new value of `x` after `x ^= BIT(n)`. */
  function ToggleBit(x: bv32, n: BitIndex): (r: bv32)
    ensures CheckBit(r, n) == !CheckBit(x, n)
    ensures r & !Bit(n) == x & !Bit(n)
  {
    x ^ Bit(n)
  }

  /** Toggling the same bit twice restores the value. */
  lemma ToggleTwice(x: bv32, n: BitIndex)
    ensures ToggleBit(ToggleBit(x, n), n) == x
  {
  }

  /** Setting a bit that is already set, or clearing one that is clear, changes nothing. */
  lemma SetClearIdempotent(x: bv32, n: BitIndex)
    ensures CheckBit(x, n) ==> SetBit(x, n) == x
    ensures !CheckBit(x, n) ==> ClearBit(x, n) == x
  {
  }

  // ------------------------------------------------------------------
  // Powers of two and alignment

  /** The 32 single-bit values of a `uint32_t`. */
  const PowersOf2: set<bv32> := {
    0x1, 0x2, 0x4, 0x8, 0x10, 0x20, 0x40, 0x80,
    0x100, 0x200, 0x400, 0x800, 0x1000, 0x2000, 0x4000, 0x8000,
    0x1_0000, 0x2_0000, 0x4_0000, 0x8_0000, 0x10_0000, 0x20_0000, 0x40_0000, 0x80_0000,
    0x100_0000, 0x200_0000, 0x400_0000, 0x800_0000, 0x1000_0000, 0x2000_0000, 0x4000_0000, 0x8000_0000
  }

  /** `IS_POWER_OF_2(x)` on a `uint32_t`. */
  function IsPowerOf2(x: bv32): (r: bool)
    ensures r <==> x in PowersOf2
  {
    x != 0 && x & (x - 1) == 0
  }

  /** `ALIGN_UP(x, align)`, on 16-bit unsigned operands. */
  function AlignUp(x: bv16, align: bv16): bv16
  {
    (x + (align - 1)) & !(align - 1)
  }

  /** `ALIGN_DOWN(x, align)`, on 16-bit unsigned operands. */
  function AlignDown(x: bv16, align: bv16): bv16
  {
    x & !(align - 1)
  }

  /**
   * For a power-of-two `align` and an `x` whose rounding does not wrap
   * around, `ALIGN_UP` gives the multiple of `align` in `[x, x + align)`.
   */
  lemma AlignUpBounds(x: bv16, align: bv16)
    requires IsPowerOf2(align as bv32) && x <= 0xFFFF - (align - 1)
    ensures AlignUp(x, align) & (align - 1) == 0
    ensures x <= AlignUp(x, align) && AlignUp(x, align) - x < align
  {
  }

  /** For a power-of-two `align`, `ALIGN_DOWN` gives the multiple of `align` in `(x - align, x]`. */
  lemma AlignDownBounds(x: bv16, align: bv16)
    requires IsPowerOf2(align as bv32)
    ensures AlignDown(x, align) & (align - 1) == 0
    ensures AlignDown(x, align) <= x && x - AlignDown(x, align) < align
  {
  }

  /** `2^n`, the number of values of an `n`-bit unsigned integer. */
  function Pow2(n: nat): (r: nat)
    ensures r > 0
  {
    if n == 0 then 1 else 2 * Pow2(n - 1)
  }

  // ------------------------------------------------------------------
  // Signed arithmetic on int32_t

  /** `SIGN(x)`: `(x > 0) - (x < 0)`. */
  function Sign(x: Int32): (r: int)
    ensures r in {-1, 0, 1}
    ensures r < 0 <==> x < 0
    ensures r == 0 <==> x == 0
    ensures r * x >= 0
  {
    (if x > 0 then 1 else 0) - (if x < 0 then 1 else 0)
  }

  /**
   * `ABS(x)`: `x >= 0 ? x : -x`.  Negating the most negative `int32_t`
   * overflows; the model writes out the two's-complement result.
   */
  function Abs(x: Int32): (r: Int32)
    ensures r >= 0 <==> x != MinInt32
    ensures x != MinInt32 ==> r == x || r == -x
    ensures x == MinInt32 ==> r == MinInt32
  {
    if x >= 0 then x else Wrap32(0 - x)
  }

  /** `SMALLER(x, y)`. */
  function Smaller(x: int, y: int): (r: int)
    ensures r <= x && r <= y
    ensures r == x || r == y
  {
    if x < y then x else y
  }

  /** `GREATER(x, y)`. */
  function Greater(x: int, y: int): (r: int)
    ensures r >= x && r >= y
    ensures r == x || r == y
  {
    if x > y then x else y
  }

  /** `CLAMP(x, min, max)`: the lower bound is tested first. */
  function Clamp(x: int, lo: int, hi: int): (r: int)
    ensures lo <= hi ==> lo <= r <= hi
    ensures lo <= x <= hi ==> r == x
    ensures x < lo ==> r == lo
    ensures lo <= x && hi < x ==> r == hi
  {
    if x < lo then lo else if x > hi then hi else x
  }

  /** Clamping into a non-empty range twice is clamping once. */
  lemma ClampIdempotent(x: int, lo: int, hi: int)
    requires lo <= hi
    ensures Clamp(Clamp(x, lo, hi), lo, hi) == Clamp(x, lo, hi)
  {
  }

  /** `INTERP(x, y, a)`: `y + a * (x - y)`, so `a = 0` gives `y` and `a = 1` gives `x`. */
  function Interp(x: int, y: int, a: int): (r: int)
    ensures a == 0 ==> r == y
    ensures a == 1 ==> r == x
    ensures x == y ==> r == y
  {
    y + a * (x - y)
  }

  // ------------------------------------------------------------------
  // SWAP

  /** `SWAP(&cells[i], &cells[j])` as an update of a sequence of cells. */
  function Swap<T>(cells: seq<T>, i: nat, j: nat): (r: seq<T>)
    requires i < |cells| && j < |cells|
    ensures |r| == |cells|
    ensures r[i] == cells[j] && r[j] == cells[i]
    ensures forall k :: 0 <= k < |cells| && k != i && k != j ==> r[k] == cells[k]
    ensures multiset(r) == multiset(cells)
  {
    cells[i := cells[j]][j := cells[i]]
  }

  /** Swapping the same two cells twice restores them. */
  lemma SwapTwice<T>(cells: seq<T>, i: nat, j: nat)
    requires i < |cells| && j < |cells|
    ensures Swap(Swap(cells, i, j), i, j) == cells
  {
    var once := Swap(cells, i, j);
    var twice := Swap(once, i, j);
    assert forall k :: 0 <= k < |cells| ==> twice[k] == cells[k];
  }
}
