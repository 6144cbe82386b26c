/**
 * The pad's pixel filters (`gfx.Filter`). Image data is a flat array of
 * channels, four per pixel in the order red, green, blue, alpha; every filter
 * rewrites each pixel independently of the others.
 *
 * Channel values are reals: the clamping and rounding the canvas applies when
 * a result is stored is not modelled.
 *
 * The JavaScript rewrites the image data in place; here each filter returns a
 * new sequence. Both agree, because every output pixel depends only on the
 * input pixel at the same position, so no pixel is read after it is written.
 */
module ImageFilters {
  import opened Wrappers

  datatype Pixel = Pixel(r: real, g: real, b: real, a: real)

  /** A fill colour for `extract`. */
  datatype Rgb = Rgb(r: real, g: real, b: real)

  /** Image data holds whole pixels only. */
  predicate WholePixels(data: seq<real>) {
    |data| % 4 == 0
  }

  function PixelCount(data: seq<real>): nat {
    |data| / 4
  }

  /** Pixel `p` of the flat channel array. */
  function PixelAt(data: seq<real>, p: nat): Pixel
    requires WholePixels(data) && p < PixelCount(data)
  {
    Pixel(data[4 * p], data[4 * p + 1], data[4 * p + 2], data[4 * p + 3])
  }

  function Channels(px: Pixel): seq<real> {
    [px.r, px.g, px.b, px.a]
  }

  /**
   * The loop every filter runs: visit the pixels in order, four channels at a
   * time, and replace each by `f` of it.
   */
  method MapPixels(data: seq<real>, f: Pixel -> Pixel) returns (out: seq<real>)
    requires WholePixels(data)
    ensures WholePixels(out) && |out| == |data|
    ensures forall p :: 0 <= p < PixelCount(data) ==> PixelAt(out, p) == f(PixelAt(data, p))
  {
    out := [];
    var p := 0;
    while p < PixelCount(data)
      invariant 0 <= p <= PixelCount(data)
      invariant |out| == 4 * p
      invariant forall q :: 0 <= q < p ==> out[4 * q..4 * q + 4] == Channels(f(PixelAt(data, q)))
    {
      var next := Channels(f(PixelAt(data, p)));
      forall q | 0 <= q < p
        ensures (out + next)[4 * q..4 * q + 4] == out[4 * q..4 * q + 4]
      {
      }
      assert (out + next)[4 * p..4 * p + 4] == next;
      out := out + next;
      p := p + 1;
    }
    forall q | 0 <= q < PixelCount(data)
      ensures PixelAt(out, q) == f(PixelAt(data, q))
    {
      var s := out[4 * q..4 * q + 4];
      assert s[0] == out[4 * q] && s[1] == out[4 * q + 1] && s[2] == out[4 * q + 2] && s[3] == out[4 * q + 3];
    }
  }

  // ---------------------------------------------------------------- desaturate

  /** The grey level `desaturate` computes, with the weights as written. */
  function Gray(px: Pixel): real {
    0.21 * px.r + 0.71 * px.g + 0.07 * px.b
  }

  /**
   * `desaturate` on one pixel: every colour channel becomes the grey level;
   * alpha becomes opaque.
   */
  function DesaturatePixel(px: Pixel): (q: Pixel)
    ensures q.r == q.g == q.b && q.a == 255.0
  {
    var v := Gray(px);
    Pixel(v, v, v, 255.0)
  }

  method Desaturate(data: seq<real>) returns (out: seq<real>)
    requires WholePixels(data)
    ensures WholePixels(out) && |out| == |data|
    ensures forall p :: 0 <= p < PixelCount(data) ==>
      && PixelAt(out, p) == DesaturatePixel(PixelAt(data, p))
      && PixelAt(out, p).r == PixelAt(out, p).g == PixelAt(out, p).b
      && PixelAt(out, p).a == 255.0
  {
    out := MapPixels(data, DesaturatePixel);
  }

  /**
   * The weights as written add up to 0.99, so desaturating is not stable on
   * grey: an already grey pixel gets darker, and white turns to 252.45.
   */
  lemma DesaturateDarkensGray(v: real)
    requires v > 0.0
    ensures DesaturatePixel(Pixel(v, v, v, 255.0)).r == 0.99 * v < v
    ensures DesaturatePixel(Pixel(255.0, 255.0, 255.0, 255.0)).r == 252.45
  {
  }

  /** The grey level with luminance weights that add up to 1. */
  function GrayCorrected(px: Pixel): real {
    0.21 * px.r + 0.72 * px.g + 0.07 * px.b
  }

  function DesaturatePixelCorrected(px: Pixel): (q: Pixel)
    ensures q.r == q.g == q.b && q.a == 255.0
  {
    var v := GrayCorrected(px);
    Pixel(v, v, v, 255.0)
  }

  /**
   * With weights adding up to 1 the grey level lies between the darkest and the
   * brightest channel, so grey pixels keep their level and a second
   * desaturation changes nothing.
   */
  lemma DesaturateCorrectedKeepsGray(px: Pixel)
    ensures var v := DesaturatePixelCorrected(px).r;
      && (px.r <= px.g && px.r <= px.b ==> px.r <= v)
      && (px.g <= px.r && px.g <= px.b ==> px.g <= v)
      && (px.b <= px.r && px.b <= px.g ==> px.b <= v)
      && (px.r >= px.g && px.r >= px.b ==> v <= px.r)
      && (px.g >= px.r && px.g >= px.b ==> v <= px.g)
      && (px.b >= px.r && px.b >= px.g ==> v <= px.b)
    ensures px.r == px.g == px.b ==> DesaturatePixelCorrected(px) == px.(a := 255.0)
    ensures DesaturatePixelCorrected(DesaturatePixelCorrected(px)) == DesaturatePixelCorrected(px)
  {
  }

  method DesaturateCorrected(data: seq<real>) returns (out: seq<real>)
    requires WholePixels(data)
    ensures WholePixels(out) && |out| == |data|
    ensures forall p :: 0 <= p < PixelCount(data) ==> PixelAt(out, p) == DesaturatePixelCorrected(PixelAt(data, p))
  {
    out := MapPixels(data, DesaturatePixelCorrected);
  }

  // ------------------------------------------------------------------ multiply

  /** `c * c / 255`: a channel multiplied by itself, on the 0..255 scale. */
  function Square(c: real): real {
    c * c / 255.0
  }

  function MultiplyPixel(px: Pixel): (q: Pixel)
    ensures q.a == 255.0
  {
    Pixel(Square(px.r), Square(px.g), Square(px.b), 255.0)
  }

  /** On the 0..255 scale squaring never brightens, and keeps black and full intensity. */
  lemma SquareDarkens(c: real)
    requires 0.0 <= c <= 255.0
    ensures 0.0 <= Square(c) <= c
    ensures Square(c) == c <==> c == 0.0 || c == 255.0
  {
    assert c * c <= 255.0 * c;
    if Square(c) == c {
      assert c * (c - 255.0) == 0.0;
    }
  }

  method Multiply(data: seq<real>) returns (out: seq<real>)
    requires WholePixels(data)
    ensures WholePixels(out) && |out| == |data|
    ensures forall p :: 0 <= p < PixelCount(data) ==>
      && PixelAt(out, p) == MultiplyPixel(PixelAt(data, p))
      && PixelAt(out, p).a == 255.0
  {
    out := MapPixels(data, MultiplyPixel);
  }

  // ---------------------------------------------------------------- brightness

  /** `brightness ? brightness : 1.25`: a missing or zero factor falls back to 1.25. */
  function BrightnessFactor(factor: Option<real>): (f: real)
    ensures factor.None? || factor.value == 0.0 ==> f == 1.25
    ensures factor.Some? && factor.value != 0.0 ==> f == factor.value
  {
    if factor.None? || factor.value == 0.0 then 1.25 else factor.value
  }

  function Min(a: real, b: real): real {
    if a <= b then a else b
  }

  /** `Math.min(255, c * f)`. */
  function Brighten(c: real, f: real): (v: real)
    ensures v <= 255.0 && v <= c * f
    ensures v == 255.0 || v == c * f
  {
    Min(255.0, c * f)
  }

  function BrightnessPixel(f: real, px: Pixel): (q: Pixel)
    ensures q.r <= 255.0 && q.g <= 255.0 && q.b <= 255.0 && q.a == 255.0
  {
    Pixel(Brighten(px.r, f), Brighten(px.g, f), Brighten(px.b, f), 255.0)
  }

  /** A factor of at least 1 never darkens a channel, unless the channel already exceeds the cap. */
  lemma BrightenNeverDarkens(c: real, f: real)
    requires 0.0 <= c <= 255.0 && f >= 1.0
    ensures c <= Brighten(c, f)
  {
    assert c * f >= c * 1.0;
  }

  method Brightness(data: seq<real>, factor: Option<real>) returns (out: seq<real>)
    requires WholePixels(data)
    ensures WholePixels(out) && |out| == |data|
    ensures forall p :: 0 <= p < PixelCount(data) ==>
      && PixelAt(out, p) == BrightnessPixel(BrightnessFactor(factor), PixelAt(data, p))
      && PixelAt(out, p).r <= 255.0 && PixelAt(out, p).g <= 255.0 && PixelAt(out, p).b <= 255.0
      && PixelAt(out, p).a == 255.0
    ensures factor.None? || factor == Some(0.0) ==>
      forall p :: 0 <= p < PixelCount(data) ==> PixelAt(out, p) == BrightnessPixel(1.25, PixelAt(data, p))
  {
    var f := BrightnessFactor(factor);
    out := MapPixels(data, px => BrightnessPixel(f, px));
  }

  // ------------------------------------------------------------------- extract

  /** `threshold ? threshold : 200`: a missing or zero threshold falls back to 200. */
  function ExtractThreshold(threshold: Option<real>): (t: real)
    ensures threshold.None? || threshold.value == 0.0 ==> t == 200.0
    ensures threshold.Some? && threshold.value != 0.0 ==> t == threshold.value
  {
    if threshold.None? || threshold.value == 0.0 then 200.0 else threshold.value
  }

  /** `rgb ? rgb : {r:0, g:67, b:124}`: the pad's ink blue unless a colour is given. */
  function ExtractColor(rgb: Option<Rgb>): (c: Rgb)
    ensures rgb.None? ==> c == Rgb(0.0, 67.0, 124.0)
    ensures rgb.Some? ==> c == rgb.value
  {
    if rgb.Some? then rgb.value else Rgb(0.0, 67.0, 124.0)
  }

  /**
   * `extract` on one pixel, judged by its red channel: brighter than the
   * threshold becomes transparent, anything else becomes opaque fill colour.
   */
  function ExtractPixel(t: real, fill: Rgb, px: Pixel): Pixel {
    if px.r > t then px.(a := 0.0) else Pixel(fill.r, fill.g, fill.b, 255.0)
  }

  /** Every pixel ends in exactly one of the two states, decided by red against the threshold. */
  lemma ExtractTwoCases(t: real, fill: Rgb, px: Pixel)
    ensures var q := ExtractPixel(t, fill, px);
      && (px.r > t <==> q == Pixel(px.r, px.g, px.b, 0.0))
      && (px.r <= t <==> q == Pixel(fill.r, fill.g, fill.b, 255.0))
  {
  }

  method Extract(data: seq<real>, threshold: Option<real>, rgb: Option<Rgb>) returns (out: seq<real>)
    requires WholePixels(data)
    ensures WholePixels(out) && |out| == |data|
    ensures forall p :: 0 <= p < PixelCount(data) ==>
      PixelAt(out, p) == ExtractPixel(ExtractThreshold(threshold), ExtractColor(rgb), PixelAt(data, p))
    ensures (threshold.None? || threshold == Some(0.0)) && rgb.None? ==>
      forall p :: 0 <= p < PixelCount(data) ==>
        PixelAt(out, p) == ExtractPixel(200.0, Rgb(0.0, 67.0, 124.0), PixelAt(data, p))
  {
    var t := ExtractThreshold(threshold);
    var fill := ExtractColor(rgb);
    out := MapPixels(data, px => ExtractPixel(t, fill, px));
  }
}
