/**
 * The HSL model (src/hsl.rs): the float form (hue in degrees, saturation and
 * lightness in [0, 1]), the integer form, and the conversion from scaled RGB.
 *
 * The saturation formula at src/hsl.rs:83 lacks the absolute value of the
 * standard `chroma / (1 - |2L - 1|)`. `SaturationAsWritten` and
 * `HslFromRgbScaledAsWritten` model the code as written; `Saturation` and
 * `HslFromRgbScaled` are the corrected definitions. `HslFromRgb` is the
 * code's `From<Rgb> for Hsl`, as written; `HslFromRgbCorrected` is the same
 * composition with the corrected saturation.
 */
module HslColor {
  import opened Numeric
  import opened RgbColor

  /** `Hsl`: hue in degrees, saturation and lightness nominally in [0, 1]. */
  datatype Hsl = Hsl(h: real, s: real, l: real)

  /** `HslInt`: hue in whole degrees, saturation and lightness in percent. */
  datatype HslInt = HslInt(h: U16, s: U8, l: U8)

  /** `From<Hsl> for HslInt`: round h, 100s and 100l, then saturate. */
  function HslIntFromHsl(hsl: Hsl): (n: HslInt)
    ensures 0.0 <= hsl.h < 360.0 ==> n.h <= 360 && -0.5 <= n.h as real - hsl.h <= 0.5
    ensures 0.0 <= hsl.s <= 1.0 ==> n.s <= 100 && -0.5 <= n.s as real - 100.0 * hsl.s <= 0.5
    ensures 0.0 <= hsl.l <= 1.0 ==> n.l <= 100 && -0.5 <= n.l as real - 100.0 * hsl.l <= 0.5
  {
    HslInt(TruncU16(Round(hsl.h) as real), TruncU8(Round(hsl.s * 100.0) as real), TruncU8(Round(hsl.l * 100.0) as real))
  }

  /** `From<HslInt> for Hsl`: the hue unchanged, the percentages divided by 100. */
  function HslFromHslInt(n: HslInt): (hsl: Hsl)
    ensures 0.0 <= hsl.h <= 65535.0 && 0.0 <= hsl.s && 0.0 <= hsl.l
    ensures n.h < 360 ==> hsl.h < 360.0
    ensures n.s <= 100 ==> hsl.s <= 1.0
    ensures n.l <= 100 ==> hsl.l <= 1.0
  {
    Hsl(n.h as real, n.s as real / 100.0, n.l as real / 100.0)
  }

  /** `HslInt -> Hsl -> HslInt` is the identity for every `u16` hue and `u8` percentages. */
  lemma {:induction false} HslIntRoundTrip(n: HslInt)
    ensures HslIntFromHsl(HslFromHslInt(n)) == n
  {
    assert n.s as real / 100.0 * 100.0 == n.s as real;
    assert n.l as real / 100.0 * 100.0 == n.l as real;
    RoundIntegral(n.h);
    RoundIntegral(n.s);
    RoundIntegral(n.l);
    TruncU8Integral(n.s);
    TruncU8Integral(n.l);
  }

  /** Chroma: the spread between the largest and the smallest channel. */
  function Chroma(r: real, g: real, b: real): (c: real)
    ensures 0.0 <= c
    ensures c == 0.0 <==> r == g == b
  {
    Max3(r, g, b) - Min3(r, g, b)
  }

  /** Lightness (src/hsl.rs:79): the midpoint of the smallest and largest channel. */
  function Lightness(r: real, g: real, b: real): (l: real)
    ensures Min3(r, g, b) <= l <= Max3(r, g, b)
    ensures l - Min3(r, g, b) == Max3(r, g, b) - l
  {
    (Min3(r, g, b) + Max3(r, g, b)) / 2.0
  }

  /**
   * Hue in degrees (src/hsl.rs:55-78). Below the chroma tolerance the hue is 0;
   * otherwise the first channel within the tolerance of the maximum selects
   * the 60-degree sector formula. Some channel always is the maximum, so the
   * `unreachable!()` branch cannot be taken.
   */
  function Hue(r: real, g: real, b: real): (h: real)
    ensures 0.0 <= h < 360.0
    ensures Chroma(r, g, b) < Eps ==> h == 0.0
    ensures Chroma(r, g, b) >= Eps && Abs(Max3(r, g, b) - r) < Eps ==>
      h <= 60.0 || 300.0 <= h
    ensures Chroma(r, g, b) >= Eps && Abs(Max3(r, g, b) - r) >= Eps && Abs(Max3(r, g, b) - g) < Eps ==>
      60.0 <= h <= 180.0
    ensures Chroma(r, g, b) >= Eps && Abs(Max3(r, g, b) - r) >= Eps && Abs(Max3(r, g, b) - g) >= Eps ==>
      180.0 <= h <= 300.0
  {
    var max := Max3(r, g, b);
    var chroma := Chroma(r, g, b);
    if chroma < Eps then 0.0
    else if Abs(max - r) < Eps then
      var segment := (g - b) / chroma;
      SegmentBound(g, b, r, chroma);
      var shift := if segment < 0.0 then 6.0 else 0.0;
      60.0 * (segment + shift)
    else if Abs(max - g) < Eps then
      var segment := (b - r) / chroma;
      SegmentBound(b, r, g, chroma);
      60.0 * (segment + 2.0)
    else if Abs(max - b) < Eps then
      var segment := (r - g) / chroma;
      SegmentBound(r, g, b, chroma);
      60.0 * (segment + 4.0)
    else
      assert false; 0.0
  }

  /** The difference of two channels, over the chroma, lies in [-1, 1]. */
  lemma SegmentBound(x: real, y: real, z: real, chroma: real)
    requires chroma == Chroma(x, y, z) && 0.0 < chroma
    ensures -1.0 <= (x - y) / chroma <= 1.0
  {
    var u := (x - y) / chroma;
    assert u * chroma == x - y;
    assert (1.0 - u) * chroma == chroma - (x - y);
    assert (1.0 + u) * chroma == chroma + (x - y);
  }

  /** The divisor of the as-written saturation is `1 - (2L - 1)`, zero only at L = 1. */
  predicate SaturationAsWrittenDefined(chroma: real, l: real) {
    chroma < Eps || l != 1.0
  }

  /**
   * Saturation as written at src/hsl.rs:80-84: the chroma itself below the
   * tolerance, otherwise `chroma / (1 - (2L - 1))`, i.e. `chroma / (2 - 2L)`,
   * without the absolute value.
   */
  function SaturationAsWritten(chroma: real, l: real): (s: real)
    requires SaturationAsWrittenDefined(chroma, l)
    ensures chroma < Eps ==> s == chroma
    ensures 0.0 <= chroma && l < 1.0 ==> 0.0 <= s
    ensures chroma >= Eps && l < 1.0 ==> s * (2.0 - 2.0 * l) == chroma
  {
    if chroma < Eps then chroma else chroma / (1.0 - (2.0 * l - 1.0))
  }

  /** The divisor of the standard saturation is `1 - |2L - 1|`, zero at L = 0 and L = 1. */
  predicate SaturationDefined(chroma: real, l: real) {
    chroma < Eps || (l != 0.0 && l != 1.0)
  }

  /**
   * The standard saturation `chroma / (1 - |2L - 1|)`, with the chroma kept
   * below the tolerance as the code does.
   */
  function Saturation(chroma: real, l: real): (s: real)
    requires SaturationDefined(chroma, l)
    ensures chroma < Eps ==> s == chroma
    ensures chroma >= Eps && 0.0 < l < 1.0 ==> chroma <= s
    ensures chroma >= Eps && 0.0 < l <= 0.5 ==> s * (2.0 * l) == chroma
    ensures chroma >= Eps && 0.5 <= l < 1.0 ==> s * (2.0 - 2.0 * l) == chroma
  {
    if chroma < Eps then chroma
    else
      var d := 1.0 - Abs(2.0 * l - 1.0);
      QuotientAtLeast(chroma, d);
      chroma / d
  }

  /** Dividing by a positive value of at most 1 cannot make a value smaller. */
  lemma QuotientAtLeast(x: real, d: real)
    ensures 0.0 < d <= 1.0 && 0.0 <= x ==> x <= x / d && x / d * d == x
  {
    if 0.0 < d <= 1.0 && 0.0 <= x {
      assert x / d * d == x;
      assert (x / d - x) * d == x * (1.0 - d);
      ProductSign(x, 1.0 - d);
      assert x / d - x >= 0.0 by { ProductSign(x - x / d, d); }
    }
  }

  /** The conditions under which `From<RgbScaled> for Hsl` divides by a non-zero value. */
  predicate Convertible(rgb: RgbScaled) {
    && rgb.Finite()
    && SaturationDefined(Chroma(rgb.r.v, rgb.g.v, rgb.b.v), Lightness(rgb.r.v, rgb.g.v, rgb.b.v))
  }

  /** In-gamut channels never make a divisor of either saturation formula zero. */
  lemma InUnitConvertible(rgb: RgbScaled)
    requires rgb.InUnit()
    ensures Convertible(rgb)
    ensures SaturationAsWrittenDefined(Chroma(rgb.r.v, rgb.g.v, rgb.b.v), Lightness(rgb.r.v, rgb.g.v, rgb.b.v))
  {
  }

  /**
   * In gamut, the saturation as written lies in [0, 1]: its divisor
   * `2 - max - min` is at least the chroma `max - min` because max <= 1.
   */
  lemma {:induction false} SaturationAsWrittenInUnit(rgb: RgbScaled)
    ensures rgb.InUnit() ==>
      && SaturationAsWrittenDefined(Chroma(rgb.r.v, rgb.g.v, rgb.b.v), Lightness(rgb.r.v, rgb.g.v, rgb.b.v))
      && 0.0 <= SaturationAsWritten(Chroma(rgb.r.v, rgb.g.v, rgb.b.v), Lightness(rgb.r.v, rgb.g.v, rgb.b.v)) <= 1.0
  {
    if rgb.InUnit() {
      var chroma := Chroma(rgb.r.v, rgb.g.v, rgb.b.v);
      var l := Lightness(rgb.r.v, rgb.g.v, rgb.b.v);
      if chroma >= Eps {
        DivUnit(chroma, 2.0 - 2.0 * l);
      }
    }
  }

  /**
   * In gamut, the standard saturation lies in [0, 1]: its divisor
   * `1 - |max + min - 1|` is at least the chroma.
   */
  lemma {:induction false} SaturationInUnit(rgb: RgbScaled)
    ensures rgb.InUnit() ==>
      && Convertible(rgb)
      && 0.0 <= Saturation(Chroma(rgb.r.v, rgb.g.v, rgb.b.v), Lightness(rgb.r.v, rgb.g.v, rgb.b.v)) <= 1.0
  {
    if rgb.InUnit() {
      var chroma := Chroma(rgb.r.v, rgb.g.v, rgb.b.v);
      var l := Lightness(rgb.r.v, rgb.g.v, rgb.b.v);
      if chroma >= Eps {
        DivUnit(chroma, 1.0 - Abs(2.0 * l - 1.0));
      }
    }
  }

  /**
   * `From<RgbScaled> for Hsl` exactly as written (src/hsl.rs:50-91): hue by
   * sector, lightness the mid-range, saturation `chroma / (1 - (2L - 1))`.
   */
  function HslFromRgbScaledAsWritten(rgb: RgbScaled): (hsl: Hsl)
    requires rgb.Finite()
    requires SaturationAsWrittenDefined(Chroma(rgb.r.v, rgb.g.v, rgb.b.v), Lightness(rgb.r.v, rgb.g.v, rgb.b.v))
    ensures 0.0 <= hsl.h < 360.0
    ensures Min3(rgb.r.v, rgb.g.v, rgb.b.v) <= hsl.l <= Max3(rgb.r.v, rgb.g.v, rgb.b.v)
    ensures Chroma(rgb.r.v, rgb.g.v, rgb.b.v) < Eps ==> hsl.h == 0.0 && hsl.s == Chroma(rgb.r.v, rgb.g.v, rgb.b.v)
    ensures rgb.InUnit() ==> 0.0 <= hsl.s <= 1.0 && 0.0 <= hsl.l <= 1.0
  {
    var (r, g, b) := (rgb.r.v, rgb.g.v, rgb.b.v);
    SaturationAsWrittenInUnit(rgb);
    Hsl(Hue(r, g, b), SaturationAsWritten(Chroma(r, g, b), Lightness(r, g, b)), Lightness(r, g, b))
  }

  /**
   * `From<RgbScaled> for Hsl` with the standard saturation
   * `chroma / (1 - |2L - 1|)`; hue and lightness as written.
   */
  function HslFromRgbScaled(rgb: RgbScaled): (hsl: Hsl)
    requires Convertible(rgb)
    ensures 0.0 <= hsl.h < 360.0
    ensures Min3(rgb.r.v, rgb.g.v, rgb.b.v) <= hsl.l <= Max3(rgb.r.v, rgb.g.v, rgb.b.v)
    ensures Chroma(rgb.r.v, rgb.g.v, rgb.b.v) < Eps ==> hsl.h == 0.0 && hsl.s == Chroma(rgb.r.v, rgb.g.v, rgb.b.v)
    ensures rgb.InUnit() ==> 0.0 <= hsl.s <= 1.0 && 0.0 <= hsl.l <= 1.0
  {
    var (r, g, b) := (rgb.r.v, rgb.g.v, rgb.b.v);
    SaturationInUnit(rgb);
    Hsl(Hue(r, g, b), Saturation(Chroma(r, g, b), Lightness(r, g, b)), Lightness(r, g, b))
  }

  /**
   * `From<Rgb> for Hsl` (src/hsl.rs:93-97) as written: via the scaled form and
   * the as-written saturation of src/hsl.rs:83.
   */
  function HslFromRgb(rgb: Rgb): (hsl: Hsl)
    ensures 0.0 <= hsl.h < 360.0 && 0.0 <= hsl.s <= 1.0 && 0.0 <= hsl.l <= 1.0
    ensures rgb.r == rgb.g == rgb.b ==> hsl.h == 0.0 && hsl.s == 0.0
  {
    var scaled := RgbScaledFromRgb(rgb);
    InUnitConvertible(scaled);
    HslFromRgbScaledAsWritten(scaled)
  }

  /** `From<Rgb> for Hsl` with the corrected saturation of `HslFromRgbScaled`. */
  function HslFromRgbCorrected(rgb: Rgb): (hsl: Hsl)
    ensures 0.0 <= hsl.h < 360.0 && 0.0 <= hsl.s <= 1.0 && 0.0 <= hsl.l <= 1.0
    ensures rgb.r == rgb.g == rgb.b ==> hsl.h == 0.0 && hsl.s == 0.0
  {
    var scaled := RgbScaledFromRgb(rgb);
    InUnitConvertible(scaled);
    HslFromRgbScaled(scaled)
  }

  /**
   * A grey of 8-bit value n has hue 0, saturation 0 and lightness n/255, with
   * either saturation formula: both keep the chroma 0 of a grey.
   */
  lemma GreyHsl(n: U8)
    ensures HslFromRgb(Rgb(n, n, n)) == Hsl(0.0, 0.0, n as real / RgbScale)
  {
    GreyScaled(n);
  }

  /** The same for the corrected conversion. */
  lemma GreyHslCorrected(n: U8)
    ensures HslFromRgbCorrected(Rgb(n, n, n)) == Hsl(0.0, 0.0, n as real / RgbScale)
  {
    GreyScaled(n);
  }

  /** The scaled channels of a grey are all n/255, so its chroma is 0. */
  lemma GreyScaled(n: U8)
    ensures var s := RgbScaledFromRgb(Rgb(n, n, n));
      && Min3(s.r.v, s.g.v, s.b.v) == Max3(s.r.v, s.g.v, s.b.v) == n as real / RgbScale
      && Chroma(s.r.v, s.g.v, s.b.v) == 0.0
  {
  }
}
