/**
 * The pixel preparation of `device_display` (`device/device.c`): under
 * RGB565 every pixel's two bytes are exchanged in place, so that the
 * little-endian framebuffer goes out high byte first; under RGB332 the
 * buffer is sent as it is. The LCD window, GPIO and SPI transfer that
 * follow are hardware I/O and are not part of this model.
 */
module Display {
  import Colour

  /** The high byte of a 16-bit pixel. */
  function HighByte(c: bv16): bv16
  {
    c >> 8
  }

  /** The low byte of a 16-bit pixel. */
  function LowByte(c: bv16): bv16
  {
    c & 0xFF
  }

  /**
   * `(colour << 8) | ((colour & 0xFF00u) >> 8)`, evaluated at 32 bits
   * after integer promotion and stored back into a `uint16_t`.
   */
  function SwapBytes(c: bv16): (r: bv16)
    ensures HighByte(r) == LowByte(c)
    ensures LowByte(r) == HighByte(c)
  {
    var w := c as bv32;
    (((w << 8) | ((w & 0xFF00) >> 8)) & 0xFFFF) as bv16
  }

  /** Swapping twice restores the pixel. */
  lemma SwapBytesInvolution(c: bv16)
    ensures SwapBytes(SwapBytes(c)) == c
  {
  }

  /** A pixel is determined by its two bytes. */
  lemma BytesDetermine(a: bv16, b: bv16)
    requires HighByte(a) == HighByte(b) && LowByte(a) == LowByte(b)
    ensures a == b
  {
  }

  /** The buffer with every pixel's bytes exchanged. */
  function Swapped(screen: seq<bv16>): (r: seq<bv16>)
    ensures |r| == |screen|
  {
    seq(|screen|, i requires 0 <= i < |screen| => SwapBytes(screen[i]))
  }

  /** Exchanging the bytes of the whole buffer twice restores it. */
  lemma SwappedTwice(screen: seq<bv16>)
    ensures Swapped(Swapped(screen)) == screen
  {
    forall i | 0 <= i < |screen| ensures Swapped(Swapped(screen))[i] == screen[i] {
      SwapBytesInvolution(screen[i]);
    }
  }

  /**
   * The loop of `device_display` over the `SCREEN_HEIGHT * SCREEN_WIDTH`
   * pixels: step `i` rewrites `screen[i]` alone, once.
   */
  method PrepareScreen(f: Colour.ColourFormat, screen: seq<bv16>) returns (r: seq<bv16>)
    ensures f == Colour.Rgb332 ==> r == screen
    ensures f == Colour.Rgb565 ==> r == Swapped(screen)
  {
    r := screen;
    if f == Colour.Rgb565 {
      var i := 0;
      while i < |r|
        invariant 0 <= i <= |r| == |screen|
        invariant forall j :: 0 <= j < i ==> r[j] == SwapBytes(screen[j])
        invariant forall j :: i <= j < |r| ==> r[j] == screen[j]
      {
        var colour := r[i];
        r := r[i := SwapBytes(colour)];
        i := i + 1;
      }
    }
  }
}
