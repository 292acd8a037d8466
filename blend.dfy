/** The thermal blend of an RGBA frame buffer: every pixel is pulled towards
    the palette colour of its own luminance by a progress value `p`. The
    buffer is a canvas pixel array, so each element is a byte and every store
    is clamped to [0,255]. */
module Blend {
  import opened Palette

  /** One element of a clamped 8-bit pixel array. */
  type Byte = x: int | 0 <= x <= 255

  /** The store conversion of a clamped pixel array for an integer value. */
  function ClampByte(x: int): (b: Byte)
    ensures 0 <= x <= 255 ==> b == x
    ensures x < 0 ==> b == 0
    ensures x > 255 ==> b == 255
  {
    if x < 0 then 0 else if x > 255 then 255 else x
  }

  /** Perceived luminance of a pixel, with the Rec. 601 weights. */
  function Luminance(r: Byte, g: Byte, b: Byte): (l: real)
    ensures 0.0 <= l <= 255.0
  {
    0.299 * r as real + 0.587 * g as real + 0.114 * b as real
  }

  /** The linear interpolation from `orig` (at p = 0) to `thermal` (at p = 1). */
  function Mix(orig: int, thermal: int, p: real): real {
    orig as real * (1.0 - p) + thermal as real * p
  }

  /** One channel moved from `orig` towards `thermal` by `p`, floored, then
      stored: at p = 0 it keeps the original, at p = 1 it is the palette value. */
  function BlendChannel(orig: Byte, thermal: int, p: real): (b: Byte)
    ensures p == 0.0 ==> b == orig
    ensures p == 1.0 && 0 <= thermal <= 255 ==> b == thermal
  {
    ClampByte(Mix(orig, thermal, p).Floor)
  }

  /** Channel `k` (0 red, 1 green, 2 blue) of a colour. */
  function Channel(c: Rgb, k: int): int
    requires 0 <= k < 3
  {
    if k == 0 then c.r else if k == 1 then c.g else c.b
  }

  /** A buffer of whole RGBA pixels. */
  predicate IsPixelBuffer(s: seq<Byte>) {
    |s| % 4 == 0
  }

  /** The palette colour of the pixel that element `k` belongs to. */
  function PixelThermal(s: seq<Byte>, k: int): Rgb
    requires IsPixelBuffer(s) && 0 <= k < |s|
  {
    var base := k - k % 4;
    ThermalColor(Luminance(s[base], s[base + 1], s[base + 2]))
  }

  /** Element `k` of the blended buffer: alpha is kept, colour channels blended. */
  function BlendedAt(s: seq<Byte>, p: real, k: int): Byte
    requires IsPixelBuffer(s) && 0 <= k < |s|
  {
    if k % 4 == 3 then s[k] else BlendChannel(s[k], Channel(PixelThermal(s, k), k % 4), p)
  }

  /** The whole buffer after the blend loop has run with progress `p`. */
  function Blended(s: seq<Byte>, p: real): (b: seq<Byte>)
    requires IsPixelBuffer(s)
    ensures |b| == |s| && IsPixelBuffer(b)
  {
    seq(|s|, k requires 0 <= k < |s| => BlendedAt(s, p, k))
  }

  /** A convex combination of two values in [0,255] stays in [0,255]. */
  lemma MixInRange(a: int, b: int, p: real)
    requires 0 <= a <= 255 && 0 <= b <= 255 && 0.0 <= p <= 1.0
    ensures 0.0 <= Mix(a, b, p) <= 255.0
  {
    var q := 1.0 - p;
    assert 0.0 <= a as real * q;
    assert (255.0 - a as real) * q >= 0.0;
    assert a as real * q <= 255.0 * q;
    assert 0.0 <= b as real * p;
    assert (255.0 - b as real) * p >= 0.0;
    assert b as real * p <= 255.0 * p;
  }

  /** The blend rewrites only colour channels; alpha bytes keep their values,
      and the length is unchanged. */
  lemma BlendKeepsAlpha(s: seq<Byte>, p: real, k: int)
    requires IsPixelBuffer(s) && 0 <= k < |s| && k % 4 == 3
    ensures |Blended(s, p)| == |s| && Blended(s, p)[k] == s[k]
  {
  }

  /** For 0 < p <= 1 and a thermal value in [0,255] the store of one channel
      never clamps: it is exactly the floored interpolation. */
  lemma BlendChannelExact(orig: Byte, thermal: int, p: real)
    requires 0 <= thermal <= 255 && 0.0 < p <= 1.0
    ensures 0.0 <= Mix(orig, thermal, p) <= 255.0
    ensures BlendChannel(orig, thermal, p) == Mix(orig, thermal, p).Floor
  {
    MixInRange(orig, thermal, p);
    FloorOfByteRange(Mix(orig, thermal, p));
  }

  /** The floor of a real in [0,255] is a byte. */
  lemma FloorOfByteRange(x: real)
    requires 0.0 <= x <= 255.0
    ensures 0 <= x.Floor <= 255
  {
  }

  /** For 0 < p <= 1 the store never clamps: every colour channel is exactly
      floor(orig * (1 - p) + thermal * p), and that interpolation lies in
      [0,255]. */
  lemma BlendIsExactFloor(s: seq<Byte>, p: real, k: int)
    requires IsPixelBuffer(s) && 0 <= k < |s| && k % 4 != 3
    requires 0.0 < p <= 1.0
    ensures var x := s[k] as real * (1.0 - p) + Channel(PixelThermal(s, k), k % 4) as real * p;
      0.0 <= x <= 255.0 && Blended(s, p)[k] == x.Floor
  {
    var th := Channel(PixelThermal(s, k), k % 4);
    BlendChannelExact(s[k], th, p);
  }

  /** At full progress every colour channel is the palette colour of the
      pixel's luminance. */
  lemma FullProgressIsPalette(s: seq<Byte>, k: int)
    requires IsPixelBuffer(s) && 0 <= k < |s| && k % 4 != 3
    ensures Blended(s, 1.0)[k] == Channel(PixelThermal(s, k), k % 4)
  {
    var th := Channel(PixelThermal(s, k), k % 4);
    assert Mix(s[k], th, 1.0) == th as real;
  }

  /** At zero progress the blend is the identity. */
  lemma ZeroProgressIsIdentity(s: seq<Byte>)
    requires IsPixelBuffer(s)
    ensures Blended(s, 0.0) == s
  {
    forall k | 0 <= k < |s| ensures Blended(s, 0.0)[k] == s[k] {
      if k % 4 != 3 {
        var th := Channel(PixelThermal(s, k), k % 4);
        assert Mix(s[k], th, 0.0) == s[k] as real;
      }
    }
  }

  /** The four elements of the pixel starting at `i`, spelled out. */
  lemma BlendedPixel(s: seq<Byte>, p: real, i: int)
    requires IsPixelBuffer(s) && 0 <= i && i + 4 <= |s| && i % 4 == 0
    ensures var c := ThermalColor(Luminance(s[i], s[i + 1], s[i + 2]));
      && BlendedAt(s, p, i) == BlendChannel(s[i], c.r, p)
      && BlendedAt(s, p, i + 1) == BlendChannel(s[i + 1], c.g, p)
      && BlendedAt(s, p, i + 2) == BlendChannel(s[i + 2], c.b, p)
      && BlendedAt(s, p, i + 3) == s[i + 3]
  {
    assert (i + 1) % 4 == 1 && (i + 2) % 4 == 2 && (i + 3) % 4 == 3;
    assert (i + 1) - (i + 1) % 4 == i && (i + 2) - (i + 2) % 4 == i;
  }

  /** A pixel that starts inside a buffer of whole pixels ends inside it, and
      the next pixel starts four bytes further on. */
  lemma NextPixelStart(i: int, n: int)
    requires i % 4 == 0 && n % 4 == 0 && 0 <= i < n
    ensures i + 4 <= n && (i + 4) % 4 == 0
  {
  }

  /** The in-place loop over the canvas bytes, four at a time. */
  method ApplyThermal(data: array<Byte>, p: real)
    requires IsPixelBuffer(data[..])
    modifies data
    ensures data[..] == Blended(old(data[..]), p)
  {
    ghost var orig := data[..];
    var i := 0;
    while i < data.Length
      invariant 0 <= i <= data.Length && i % 4 == 0
      invariant forall k :: 0 <= k < i ==> data[k] == BlendedAt(orig, p, k)
      invariant forall k :: i <= k < data.Length ==> data[k] == orig[k]
    {
      NextPixelStart(i, data.Length);
      BlendedPixel(orig, p, i);
      var c := ThermalColor(Luminance(data[i], data[i + 1], data[i + 2]));
      data[i] := BlendChannel(data[i], c.r, p);
      data[i + 1] := BlendChannel(data[i + 1], c.g, p);
      data[i + 2] := BlendChannel(data[i + 2], c.b, p);
      forall k | i <= k < i + 4
        ensures data[k] == BlendedAt(orig, p, k)
      {
        assert k == i || k == i + 1 || k == i + 2 || k == i + 3;
      }
      i := i + 4;
    }
    assert data[..] == Blended(orig, p);
  }
}
