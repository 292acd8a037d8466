/** The false-colour ("thermal") palette: a piecewise-linear map from a
    luminance sample to an RGB triple, in five bands over the normalised
    luminance. Arithmetic is exact (`real`); `Math.floor` is `.Floor`. */
module Palette {

  /** One colour as the palette returns it: three integer channels. */
  datatype Rgb = Rgb(r: int, g: int, b: int)

  /** All three channels of `c` are valid 8-bit values. */
  predicate IsByteColor(c: Rgb) {
    0 <= c.r <= 255 && 0 <= c.g <= 255 && 0 <= c.b <= 255
  }

  /** Band edges on the normalised scale [0,1]. */
  const CyanEdge: real := 0.3
  const GreenEdge: real := 0.35
  const YellowEdge: real := 0.5
  const RedEdge: real := 0.75

  /** Green channel of the top band at full intensity (orange is (255,165,0)). */
  const OrangeGreen: int := 165

  /** The luminance divided by 255 and clamped to [0,1]. */
  function Normalize(intensity: real): (n: real)
    ensures 0.0 <= n <= 1.0
    ensures 0.0 <= intensity <= 255.0 ==> n * 255.0 == intensity
    ensures intensity < 0.0 ==> n == 0.0
    ensures intensity > 255.0 ==> n == 1.0
  {
    var q := intensity / 255.0;
    if q < 0.0 then 0.0 else if q > 1.0 then 1.0 else q
  }

  /** The palette colour of a luminance sample; any real is accepted. */
  function ThermalColor(intensity: real): (c: Rgb)
    ensures IsByteColor(c)
  {
    var n := Normalize(intensity);
    if n < CyanEdge then
      // dark blue to cyan
      var t := n / CyanEdge;
      Rgb(0, (t * 255.0).Floor, 255)
    else if n < GreenEdge then
      // cyan to green
      var t := (n - CyanEdge) / (GreenEdge - CyanEdge);
      Rgb(0, 255, (255.0 * (1.0 - t)).Floor)
    else if n < YellowEdge then
      // green to yellow
      var t := (n - GreenEdge) / (YellowEdge - GreenEdge);
      Rgb((t * 255.0).Floor, 255, 0)
    else if n < RedEdge then
      // yellow to red
      var t := (n - YellowEdge) / (RedEdge - YellowEdge);
      Rgb(255, (255.0 * (1.0 - t)).Floor, 0)
    else
      // red to orange
      var t := (n - RedEdge) / (1.0 - RedEdge);
      Rgb(255, (t * OrangeGreen as real).Floor, 0)
  }

  /** Inputs outside [0,255] are clamped: the colour of anything below 0 is
      the colour of 0, and of anything above 255 the colour of 255. */
  lemma ClampsInput(intensity: real)
    ensures intensity < 0.0 ==> ThermalColor(intensity) == ThermalColor(0.0)
    ensures intensity > 255.0 ==> ThermalColor(intensity) == ThermalColor(255.0)
  {
    assert Normalize(0.0) == 0.0;
    assert Normalize(255.0) == 1.0;
  }

  /** The fixed endpoints of the palette and the colour at the red edge. */
  lemma Endpoints()
    ensures ThermalColor(0.0) == Rgb(0, 0, 255)
    ensures ThermalColor(255.0 * RedEdge) == Rgb(255, 0, 0)
    ensures ThermalColor(255.0) == Rgb(255, 165, 0)
  {
    assert Normalize(255.0 * RedEdge) == RedEdge;
    assert Normalize(255.0) == 1.0;
  }

  /** In every band two channels are fixed and the third stays in the range
      it interpolates over. */
  lemma BandChannels(intensity: real)
    ensures var n, c := Normalize(intensity), ThermalColor(intensity);
      && (n < CyanEdge ==> c.r == 0 && c.b == 255 && 0 <= c.g < 255)
      && (CyanEdge <= n < GreenEdge ==> c.r == 0 && c.g == 255 && 0 <= c.b <= 255)
      && (GreenEdge <= n < YellowEdge ==> c.g == 255 && c.b == 0 && 0 <= c.r < 255)
      && (YellowEdge <= n < RedEdge ==> c.r == 255 && c.b == 0 && 0 <= c.g <= 255)
      && (RedEdge <= n ==> c.r == 255 && c.b == 0 && 0 <= c.g <= OrangeGreen)
  {
  }

  /** Two colours differ by at most `d` in every channel. */
  predicate Near(c: Rgb, e: Rgb, d: int) {
    -d <= c.r - e.r <= d && -d <= c.g - e.g <= d && -d <= c.b - e.b <= d
  }

  /** Approaching a band edge from below: a luminance less than 0.05 (on the
      0-255 luminance scale, that is 0.05/255 normalised) below the luminance
      of an edge gets a colour within 1 per channel of the colour at the edge. */
  lemma ContinuousAtEdges(intensity: real, edge: real)
    requires edge == CyanEdge || edge == GreenEdge || edge == YellowEdge || edge == RedEdge
    requires 255.0 * edge - 0.05 < intensity < 255.0 * edge
    ensures Near(ThermalColor(intensity), ThermalColor(255.0 * edge), 1)
  {
    assert Normalize(255.0 * edge) == edge;
    var n := Normalize(intensity);
    assert n * 255.0 == intensity;
    assert edge - n < 0.05 / 255.0;
  }

  /** The palette has no visible seam: any two luminances less than 0.05 (on
      the 0-255 luminance scale) below and above the luminance of a band edge
      get colours within 1 of each other in every channel. */
  lemma NoSeamAcrossEdges(edge: real, d1: real, d2: real)
    requires edge == CyanEdge || edge == GreenEdge || edge == YellowEdge || edge == RedEdge
    requires 0.0 < d1 < 0.05 && 0.0 < d2 < 0.05
    ensures Near(ThermalColor(255.0 * edge - d1), ThermalColor(255.0 * edge + d2), 1)
  {
    var lo, hi := 255.0 * edge - d1, 255.0 * edge + d2;
    assert Normalize(lo) * 255.0 == lo;
    assert Normalize(hi) * 255.0 == hi;
  }
}
