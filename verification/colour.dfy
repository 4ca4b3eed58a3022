/**
 * The colour configuration of `colour/colour.h` and the RGB332 palette of
 * `colour/rgb332.h`.
 */
module Colour {
  import Macros
  import opened Wrappers

  /** The two pixel formats. */
  datatype ColourFormat = Rgb332 | Rgb565

  /**
   * The format the preprocessor settles on, given whether the build defines
   * `RGB332` and `RGB565`: none or both fall back to RGB332.
   */
  function ResolveColour(definesRgb332: bool, definesRgb565: bool): (r: ColourFormat)
    ensures !definesRgb332 && !definesRgb565 ==> r == Rgb332
    ensures definesRgb332 && definesRgb565 ==> r == Rgb332
    ensures definesRgb332 && !definesRgb565 ==> r == Rgb332
    ensures !definesRgb332 && definesRgb565 ==> r == Rgb565
  {
    var count := (if definesRgb332 then 1 else 0) + (if definesRgb565 then 1 else 0);
    if count == 0 then Rgb332
    else if count > 1 then Rgb332
    else if definesRgb332 then Rgb332
    else Rgb565
  }

  /** The width in bits of `colour_t`: `rgb332_t` or `rgb565_t`. */
  function ColourBits(f: ColourFormat): (r: nat)
    ensures r == 8 <==> f == Rgb332
    ensures r == 16 <==> f == Rgb565
  {
    match f
    case Rgb332 => 8
    case Rgb565 => 16
  }

  /** Whether `c` is a value of the `colour_t` of format `f`. */
  predicate IsColour(f: ColourFormat, c: nat)
  {
    c < Macros.Pow2(ColourBits(f))
  }

  // ------------------------------------------------------------------
  // RGB332

  const RedBits: bv8 := 0xE0
  const GreenBits: bv8 := 0x1C
  const BlueBits: bv8 := 0x03

  /** The named colours shared by both formats' palettes. */
  datatype ColourName =
    | Black | Grey | White | Red | Green | Blue | Yellow | Magenta | Cyan
    | DarkGrey | DarkRed | DarkGreen | DarkBlue
    | LightGrey | LightRed | LightGreen | LightBlue
    | Orange | Pink | Purple | Brown | Teal | Lime

  /**
   * `RGB332_<name>`: the palette entry of each named colour. Read backwards
   * through `NameOf`, the entry gives back its name.
   */
  function Rgb332Value(name: ColourName): (r: bv8)
    ensures NameOf(r) == Some(name)
  {
    match name
    case Black => 0x00
    case Grey => 0x92
    case White => 0xFF
    case Red => 0xE0
    case Green => 0x1C
    case Blue => 0x03
    case Yellow => 0xFC
    case Magenta => 0xE3
    case Cyan => 0x1F
    case DarkGrey => 0x49
    case DarkRed => 0x80
    case DarkGreen => 0x10
    case DarkBlue => 0x01
    case LightGrey => 0x86
    case LightRed => 0xD1
    case LightGreen => 0x59
    case LightBlue => 0x2F
    case Orange => 0xB6
    case Pink => 0xE6
    case Purple => 0x8B
    case Brown => 0xA8
    case Teal => 0x17
    case Lime => 0xB4
  }

  /**
   * `COLOUR_<name>` under RGB332: the alias of `RGB332_<name>`, widened to
   * the pixel store. The RGB565 palette is not part of this model.
   */
  function NamedColour(name: ColourName): (r: nat)
    ensures IsColour(Rgb332, r)
    ensures forall other: ColourName :: Rgb332Value(other) as nat == r <==> other == name
  {
    assert Macros.Pow2(8) == 0x100;
    PaletteDistinct(name);
    Rgb332Value(name) as nat
  }

  /** The name whose palette entry is `c`, if any: the palette read backwards. */
  function NameOf(c: bv8): Option<ColourName>
  {
    if c == 0x00 then Some(Black) else if c == 0x92 then Some(Grey)
    else if c == 0xFF then Some(White) else if c == 0xE0 then Some(Red)
    else if c == 0x1C then Some(Green) else if c == 0x03 then Some(Blue)
    else if c == 0xFC then Some(Yellow) else if c == 0xE3 then Some(Magenta)
    else if c == 0x1F then Some(Cyan) else if c == 0x49 then Some(DarkGrey)
    else if c == 0x80 then Some(DarkRed) else if c == 0x10 then Some(DarkGreen)
    else if c == 0x01 then Some(DarkBlue) else if c == 0x86 then Some(LightGrey)
    else if c == 0xD1 then Some(LightRed) else if c == 0x59 then Some(LightGreen)
    else if c == 0x2F then Some(LightBlue) else if c == 0xB6 then Some(Orange)
    else if c == 0xE6 then Some(Pink) else if c == 0x8B then Some(Purple)
    else if c == 0xA8 then Some(Brown) else if c == 0x17 then Some(Teal)
    else if c == 0xB4 then Some(Lime) else None
  }

  /** No two names share a palette entry: the value of a named colour identifies its name. */
  lemma PaletteDistinct(name: ColourName)
    ensures forall other: ColourName :: Rgb332Value(other) == Rgb332Value(name) <==> other == name
  {
    forall other: ColourName ensures Rgb332Value(other) == Rgb332Value(name) <==> other == name {
      assert NameOf(Rgb332Value(other)) == Some(other);
      assert NameOf(Rgb332Value(name)) == Some(name);
    }
  }

  /** The three channel masks are pairwise disjoint and together cover the byte. */
  lemma MasksPartitionByte()
    ensures RedBits & GreenBits == 0 && RedBits & BlueBits == 0 && GreenBits & BlueBits == 0
    ensures RedBits | GreenBits | BlueBits == 0xFF
  {
  }

  /** Any RGB332 byte is the union of its three channels. */
  lemma ChannelsRecompose(c: bv8)
    ensures c == (c & RedBits) | (c & GreenBits) | (c & BlueBits)
  {
    MasksPartitionByte();
  }

  /** The primaries are their channel masks, the secondaries the unions of two primaries. */
  lemma PaletteAlgebra()
    ensures Rgb332Value(Red) == RedBits
    ensures Rgb332Value(Green) == GreenBits
    ensures Rgb332Value(Blue) == BlueBits
    ensures Rgb332Value(Yellow) == Rgb332Value(Red) | Rgb332Value(Green)
    ensures Rgb332Value(Magenta) == Rgb332Value(Red) | Rgb332Value(Blue)
    ensures Rgb332Value(Cyan) == Rgb332Value(Green) | Rgb332Value(Blue)
    ensures Rgb332Value(Black) == 0
    ensures Rgb332Value(White) == RedBits | GreenBits | BlueBits
  {
  }
}
