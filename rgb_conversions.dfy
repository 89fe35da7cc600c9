/**
 * The conversions of src/rgb.rs that produce RGB from CMYK and from HSL.
 */
module RgbConversions {
  import opened Numeric
  import opened RgbColor
  import opened CmykColor
  import opened HslColor

  /**
   * `From<Cmyk> for RgbScaled`: each channel is `(1 - x) * (1 - k)`. A NaN
   * field (black from `CmykFromRgbScaled`) gives a NaN channel.
   */
  function RgbScaledFromCmyk(cmyk: Cmyk): (rgb: RgbScaled)
    ensures rgb.Finite() <==> cmyk.Finite()
    ensures cmyk.c.NaN? ==> rgb.r.NaN?
    ensures cmyk.m.NaN? ==> rgb.g.NaN?
    ensures cmyk.y.NaN? ==> rgb.b.NaN?
    ensures cmyk.InUnit() ==> rgb.InUnit()
    ensures cmyk.Finite() && cmyk.k == 1.0 ==> rgb == RgbScaled(Num(0.0), Num(0.0), Num(0.0))
    ensures cmyk == Cmyk(Num(0.0), Num(0.0), Num(0.0), 0.0) ==> rgb == RgbScaled(Num(1.0), Num(1.0), Num(1.0))
  {
    InUnitProducts(cmyk);
    RgbScaled(
      Scale(OneMinus(cmyk.c), 1.0 - cmyk.k),
      Scale(OneMinus(cmyk.m), 1.0 - cmyk.k),
      Scale(OneMinus(cmyk.y), 1.0 - cmyk.k))
  }

  /** In gamut, every product `(1 - x) * (1 - k)` lies in [0, 1]. */
  lemma InUnitProducts(cmyk: Cmyk)
    ensures cmyk.InUnit() ==>
      && 0.0 <= (1.0 - cmyk.c.v) * (1.0 - cmyk.k) <= 1.0
      && 0.0 <= (1.0 - cmyk.m.v) * (1.0 - cmyk.k) <= 1.0
      && 0.0 <= (1.0 - cmyk.y.v) * (1.0 - cmyk.k) <= 1.0
  {
    if cmyk.InUnit() {
      ScaledDown(1.0 - cmyk.c.v, 1.0 - cmyk.k);
      ScaledDown(1.0 - cmyk.m.v, 1.0 - cmyk.k);
      ScaledDown(1.0 - cmyk.y.v, 1.0 - cmyk.k);
    }
  }

  /**
   * `From<Cmyk> for Rgb`: via the scaled form. A key of 1 gives black whatever
   * c, m and y are, NaN and infinities included: every channel is a multiple
   * of `1 - k = 0`.
   */
  function RgbFromCmyk(cmyk: Cmyk): (rgb: Rgb)
    ensures cmyk.k == 1.0 ==> rgb == Rgb(0, 0, 0)
  {
    RgbFromRgbScaled(RgbScaledFromCmyk(cmyk))
  }

  /**
   * The single wrap of the hue parameter `t` at src/rgb.rs:63-67: +1 below 0,
   * -1 above 1. From [-1, 2], which holds every shift `h + 1/3`, `h`,
   * `h - 1/3` of a hue fraction in [0, 1], it lands in [0, 1].
   */
  function WrapHue(t: real): (w: real)
    ensures -1.0 <= t ==> 0.0 <= w
    ensures t <= 2.0 ==> w <= 1.0
    ensures w == t || w == t + 1.0 || w == t - 1.0
    ensures 0.0 <= t <= 1.0 ==> w == t
  {
    if t < 0.0 then t + 1.0
    else if t > 1.0 then t - 1.0
    else t
  }

  /**
   * `hue_to_rgb` (src/rgb.rs:62-77): after the wrap, a rise from p to q on
   * [0, 1/6), q on [1/6, 1/2), a fall back to p on [1/2, 2/3), p after.
   * For p <= q it never leaves [p, q].
   */
  function HueToRgb(p: real, q: real, t: real): (x: real)
    ensures p <= q && -1.0 <= t ==> p <= x <= q
  {
    var w := WrapHue(t);
    if w < 1.0 / 6.0 then Ramp(p, q, 6.0 * w)
    else if w < 1.0 / 2.0 then q
    else if w < 2.0 / 3.0 then Ramp(p, q, (2.0 / 3.0 - w) * 6.0)
    else p
  }

  /** The interpolation `p + (q - p) * f`: between p and q for f in [0, 1]. */
  function Ramp(p: real, q: real, f: real): (x: real)
    ensures p <= q && 0.0 <= f <= 1.0 ==> p <= x <= q
  {
    ProductSign(q - p, f);
    ProductSign(q - p, 1.0 - f);
    p + (q - p) * f
  }

  /**
   * `q` of src/rgb.rs:86-90. For saturation and lightness in [0, 1], it and
   * `p = 2l - q` bracket the lightness inside [0, 1].
   */
  function UpperQ(s: real, l: real): (q: real)
    ensures 0.0 <= s <= 1.0 && 0.0 <= l <= 1.0 ==> 0.0 <= 2.0 * l - q <= l <= q <= 1.0
  {
    ProductSign(l, s);
    ProductSign(l, 1.0 - s);
    ProductSign(1.0 - l, s);
    ProductSign(1.0 - l, 1.0 - s);
    if l < 0.5 then l * (1.0 + s) else l + s - l * s
  }

  /**
   * `From<Hsl> for RgbScaled` (src/rgb.rs:59-99): the hue as a fraction of a
   * turn; below the saturation tolerance a grey of the lightness; otherwise
   * `hue_to_rgb` at the hue shifted by +1/3, 0 and -1/3.
   */
  function RgbScaledFromHsl(hsl: Hsl): (rgb: RgbScaled)
    ensures rgb.Finite()
    ensures hsl.s < Eps ==> rgb.r.v == rgb.g.v == rgb.b.v == hsl.l
    ensures 0.0 <= hsl.h && 0.0 <= hsl.s <= 1.0 && 0.0 <= hsl.l <= 1.0 ==> rgb.InUnit()
  {
    var h := hsl.h / 360.0;
    if hsl.s < Eps then
      RgbScaled(Num(hsl.l), Num(hsl.l), Num(hsl.l))
    else
      var q := UpperQ(hsl.s, hsl.l);
      var p := 2.0 * hsl.l - q;
      RgbScaled(Num(HueToRgb(p, q, h + 1.0 / 3.0)), Num(HueToRgb(p, q, h)), Num(HueToRgb(p, q, h - 1.0 / 3.0)))
  }

  /** `From<Hsl> for Rgb`: via the scaled form. */
  function RgbFromHsl(hsl: Hsl): (rgb: Rgb)
    ensures hsl.s < Eps ==> rgb.r == rgb.g == rgb.b
    ensures hsl.s < Eps && 0.0 <= hsl.l <= 1.0 ==> rgb.r as real <= 255.0 * hsl.l < rgb.r as real + 1.0
  {
    RgbFromRgbScaled(RgbScaledFromHsl(hsl))
  }
}
