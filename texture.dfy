/**
 * Software-rendered frames: `Update16BitTexture` turns an RGB565 frame from a
 * core into the BGRA8888 bytes of the render target.
 *
 * A source pixel is an `FDXTColor565`, a 16-bit word whose low 5 bits are
 * blue, next 6 bits green and high 5 bits red.  Each channel is widened to 8
 * bits through a lookup table, and alpha is always 255.  The source buffer is
 * pitched: row y starts `pitch / 2` pixels after row y - 1.
 */
module Texture {

  type Byte = x: int | 0 <= x < 0x100
  type Rgb565 = x: int | 0 <= x < 0x1_0000

  /** `_5_bit_threshold`: 5-bit channel value to 8 bits. */
  const FIVE_BIT_LUT: seq<Byte> := [
    0, 8, 16, 25, 33, 41, 49, 58, 66, 74, 82, 90, 99, 107, 115, 123,
    132, 140, 148, 156, 165, 173, 181, 189, 197, 206, 214, 222, 230, 239, 247, 255]

  /** `_6_bit_threshold`: 6-bit channel value to 8 bits. */
  const SIX_BIT_LUT: seq<Byte> := SIX_BIT_LUT_LOW + SIX_BIT_LUT_HIGH
  const SIX_BIT_LUT_LOW: seq<Byte> := [
    0, 4, 8, 12, 16, 20, 24, 28, 32, 36, 40, 45, 49, 53, 57, 61,
    65, 69, 73, 77, 81, 85, 89, 93, 97, 101, 105, 109, 113, 117, 121, 125]
  const SIX_BIT_LUT_HIGH: seq<Byte> := [
    130, 134, 138, 142, 146, 150, 154, 158, 162, 166, 170, 174, 178, 182, 186, 190,
    194, 198, 202, 206, 210, 215, 219, 223, 227, 231, 235, 239, 243, 247, 251, 255]

  function Blue(p: Rgb565): (b: nat) ensures b < 32 { p % 32 }
  function Green(p: Rgb565): (g: nat) ensures g < 64 { (p / 32) % 64 }
  function Red(p: Rgb565): (r: nat) ensures r < 32 { p / 2048 }

  /** The three channels are the whole pixel: it is recovered from them. */
  lemma ChannelsDeterminePixel(p: Rgb565)
    ensures p == Red(p) * 2048 + Green(p) * 32 + Blue(p)
  {
  }

  /** `x + pitch / 2 * y`: where pixel (x, y) sits in the pitched source buffer. */
  function SourceIndex(x: nat, y: nat, pitch: nat): nat
  {
    x + pitch / 2 * y
  }

  /** `4 * (x + y * width)`: the first of pixel (x, y)'s four output bytes. */
  function PixelBase(x: nat, y: nat, width: nat): nat
  {
    4 * (x + y * width)
  }

  /** Pixel (x, y) of `out` holds blue, green, red and 255 converted from its source pixel. */
  ghost predicate PixelConverted(out: seq<Byte>, data: seq<Rgb565>, x: nat, y: nat, width: nat, pitch: nat)
  {
    && SourceIndex(x, y, pitch) < |data|
    && PixelBase(x, y, width) + 3 < |out|
    && var p := data[SourceIndex(x, y, pitch)];
    && var base := PixelBase(x, y, width);
    && out[base] == FIVE_BIT_LUT[Blue(p)]
    && out[base + 1] == SIX_BIT_LUT[Green(p)]
    && out[base + 2] == FIVE_BIT_LUT[Red(p)]
    && out[base + 3] == 255
  }

  /** Row-major order: a pixel before (x, y) ends its four bytes before (x, y)'s start. */
  lemma EarlierPixelBefore(x': nat, y': nat, x: nat, y: nat, width: nat)
    requires (y' < y && x' < width) || (y' == y && x' < x)
    ensures PixelBase(x', y', width) + 4 <= PixelBase(x, y, width)
  {
    if y' < y {
      assert (y' + 1) * width <= y * width;
    }
  }

  /** Every pixel of the frame has its four bytes inside the `4 * width * height` buffer. */
  lemma PixelInBuffer(x: nat, y: nat, width: nat, height: nat)
    requires x < width && y < height
    ensures PixelBase(x, y, width) + 3 < 4 * width * height
  {
    assert (y + 1) * width <= height * width;
  }

  /** Every pixel before (x, y) in row-major order is converted. */
  ghost predicate ConvertedBefore(out: seq<Byte>, data: seq<Rgb565>, x: nat, y: nat, width: nat, pitch: nat)
  {
    forall x', y' :: (0 <= x' < width && 0 <= y' < y) || (y' == y && 0 <= x' < x) ==>
      PixelConverted(out, data, x', y', width, pitch)
  }

  /** The four stores of one loop iteration: blue, green, red and alpha at `base`. */
  function StorePixel(out: seq<Byte>, base: nat, p: Rgb565): (r: seq<Byte>)
    requires base + 3 < |out|
    ensures |r| == |out|
    ensures forall i :: 0 <= i < |out| && (i < base || base + 4 <= i) ==> r[i] == out[i]
  {
    out[base := FIVE_BIT_LUT[Blue(p)]][base + 1 := SIX_BIT_LUT[Green(p)]]
       [base + 2 := FIVE_BIT_LUT[Red(p)]][base + 3 := 255]
  }

  /** Bytes outside [base, base + 4) did not change, so a pixel stored below base is still converted. */
  lemma ConvertedKept(before: seq<Byte>, after: seq<Byte>, data: seq<Rgb565>,
                      x: nat, y: nat, width: nat, pitch: nat, base: nat)
    requires |before| == |after|
    requires forall i :: 0 <= i < |before| && (i < base || base + 4 <= i) ==> after[i] == before[i]
    requires PixelBase(x, y, width) + 4 <= base
    requires PixelConverted(before, data, x, y, width, pitch)
    ensures PixelConverted(after, data, x, y, width, pitch)
  {
  }

  /** Storing pixel (x, y) converts it and keeps every earlier pixel converted. */
  lemma StorePixelAdvances(out: seq<Byte>, data: seq<Rgb565>, x: nat, y: nat, width: nat, height: nat, pitch: nat)
    requires x < width && y < height && |out| == 4 * width * height
    requires SourceIndex(x, y, pitch) < |data|
    requires ConvertedBefore(out, data, x, y, width, pitch)
    ensures PixelBase(x, y, width) + 3 < |out|
    ensures ConvertedBefore(StorePixel(out, PixelBase(x, y, width), data[SourceIndex(x, y, pitch)]),
                            data, x + 1, y, width, pitch)
  {
    PixelInBuffer(x, y, width, height);
    var base := PixelBase(x, y, width);
    var after := StorePixel(out, base, data[SourceIndex(x, y, pitch)]);
    assert PixelConverted(after, data, x, y, width, pitch);
    forall x', y' | (0 <= x' < width && 0 <= y' < y) || (y' == y && 0 <= x' < x)
      ensures PixelConverted(after, data, x', y', width, pitch)
    {
      EarlierPixelBefore(x', y', x, y, width);
      ConvertedKept(out, after, data, x', y', width, pitch, base);
    }
  }

  /** A finished row: all of row y converted is everything before row y + 1. */
  lemma RowDone(out: seq<Byte>, data: seq<Rgb565>, y: nat, width: nat, pitch: nat)
    requires ConvertedBefore(out, data, width, y, width, pitch)
    ensures ConvertedBefore(out, data, 0, y + 1, width, pitch)
  {
  }

  /** The four byte stores of one iteration of the inner loop. */
  method WritePixel(bgra: array<Byte>, base: nat, p: Rgb565)
    requires base + 3 < bgra.Length
    modifies bgra
    ensures bgra[..] == StorePixel(old(bgra[..]), base, p)
  {
    ghost var before: seq<Byte> := bgra[..];
    bgra[base] := FIVE_BIT_LUT[Blue(p)];
    ghost var s1: seq<Byte> := before[base := FIVE_BIT_LUT[Blue(p)]];
    assert bgra[..] == s1;
    bgra[base + 1] := SIX_BIT_LUT[Green(p)];
    ghost var s2: seq<Byte> := s1[base + 1 := SIX_BIT_LUT[Green(p)]];
    assert bgra[..] == s2;
    bgra[base + 2] := FIVE_BIT_LUT[Red(p)];
    ghost var s3: seq<Byte> := s2[base + 2 := FIVE_BIT_LUT[Red(p)]];
    assert bgra[..] == s3;
    bgra[base + 3] := 255;
  }

  /**
   * The nested loop of `Update16BitTexture`: a fresh buffer of
   * `4 * width * height` bytes in which every pixel is converted.
   */
  method Update16BitTexture(data: seq<Rgb565>, width: nat, height: nat, pitch: nat) returns (bgra: array<Byte>)
    requires forall x, y :: 0 <= x < width && 0 <= y < height ==> SourceIndex(x, y, pitch) < |data|
    ensures fresh(bgra) && bgra.Length == 4 * width * height
    ensures forall x, y :: 0 <= x < width && 0 <= y < height ==>
      PixelConverted(bgra[..], data, x, y, width, pitch)
  {
    bgra := new Byte[4 * width * height];
    var y := 0;
    while y < height
      invariant 0 <= y <= height
      invariant ConvertedBefore(bgra[..], data, 0, y, width, pitch)
    {
      var x := 0;
      while x < width
        invariant 0 <= x <= width
        invariant ConvertedBefore(bgra[..], data, x, y, width, pitch)
      {
        var p := data[SourceIndex(x, y, pitch)];
        var base := PixelBase(x, y, width);
        StorePixelAdvances(bgra[..], data, x, y, width, height, pitch);
        WritePixel(bgra, base, p);
        x := x + 1;
      }
      RowDone(bgra[..], data, y, width, pitch);
      y := y + 1;
    }
  }

  // ---------------------------------------------------------------------------
  // The lookup tables.

  /**
   * Both tables widen a channel to 8 bits by rounding to nearest:
   * entry i is i * 255 / 31 (five bits) or i * 255 / 63 (six bits), rounded.
   */
  lemma LutsRoundToNearest()
    ensures forall i :: 0 <= i < 32 ==> FIVE_BIT_LUT[i] == (510 * i + 31) / 62
    ensures forall i :: 0 <= i < 64 ==> SIX_BIT_LUT[i] == (510 * i + 63) / 126
  {
    forall i | 0 <= i < 32 ensures FIVE_BIT_LUT[i] == (510 * i + 31) / 62 {
      assert i == 0 || i == 1 || i == 2 || i == 3 || i == 4 || i == 5 || i == 6 || i == 7 || i == 8 || i == 9 || i == 10 || i == 11 || i == 12 || i == 13 || i == 14 || i == 15 || i == 16 || i == 17 || i == 18 || i == 19 || i == 20 || i == 21 || i == 22 || i == 23 || i == 24 || i == 25 || i == 26 || i == 27 || i == 28 || i == 29 || i == 30 || i == 31;
    }
    forall i | 0 <= i < 32 ensures SIX_BIT_LUT_LOW[i] == (510 * i + 63) / 126 {
      assert i == 0 || i == 1 || i == 2 || i == 3 || i == 4 || i == 5 || i == 6 || i == 7 || i == 8 || i == 9 || i == 10 || i == 11 || i == 12 || i == 13 || i == 14 || i == 15 || i == 16 || i == 17 || i == 18 || i == 19 || i == 20 || i == 21 || i == 22 || i == 23 || i == 24 || i == 25 || i == 26 || i == 27 || i == 28 || i == 29 || i == 30 || i == 31;
    }
    forall i | 32 <= i < 64 ensures SIX_BIT_LUT_HIGH[i - 32] == (510 * i + 63) / 126 {
      assert i == 32 || i == 33 || i == 34 || i == 35 || i == 36 || i == 37 || i == 38 || i == 39 || i == 40 || i == 41 || i == 42 || i == 43 || i == 44 || i == 45 || i == 46 || i == 47 || i == 48 || i == 49 || i == 50 || i == 51 || i == 52 || i == 53 || i == 54 || i == 55 || i == 56 || i == 57 || i == 58 || i == 59 || i == 60 || i == 61 || i == 62 || i == 63;
    }
  }

  /** Black stays black, full intensity becomes 255, and a brighter channel gives a brighter byte. */
  lemma LutsMonotone()
    ensures FIVE_BIT_LUT[0] == 0 && FIVE_BIT_LUT[31] == 255
    ensures SIX_BIT_LUT[0] == 0 && SIX_BIT_LUT[63] == 255
    ensures forall i, j :: 0 <= i < j < 32 ==> FIVE_BIT_LUT[i] < FIVE_BIT_LUT[j]
    ensures forall i, j :: 0 <= i < j < 64 ==> SIX_BIT_LUT[i] < SIX_BIT_LUT[j]
  {
    LutsRoundToNearest();
  }
}
