/**
 * The RGB model (src/rgb.rs): 8-bit display channels and their scaled float
 * form, with the two conversions between them. The conversions of rgb.rs that
 * start from CMYK or HSL are in module RgbConversions.
 */
module RgbColor {
  import opened Numeric

  /** `Rgb`: three 8-bit channels. */
  datatype Rgb = Rgb(r: U8, g: U8, b: U8)

  /**
   * `RgbScaled`: three `f32` channels, each nominally in [0, 1]. A channel is
   * NaN when it is computed from a `Cmyk` with a NaN field, as black's c, m
   * and y are, or from an infinite field times a zero `1 - k`. It is infinite
   * only when computed from a `Cmyk` with an infinite field and a key other
   * than 1.
   */
  datatype RgbScaled = RgbScaled(r: Float, g: Float, b: Float)
  {
    predicate Finite() { r.Num? && g.Num? && b.Num? }

    /** Every channel finite and in the unit interval. */
    predicate InUnit() {
      Finite() && ChannelsInUnit(r.v, g.v, b.v)
    }
  }

  /** Three channel values in the unit interval. */
  predicate ChannelsInUnit(r: real, g: real, b: real) {
    0.0 <= r <= 1.0 && 0.0 <= g <= 1.0 && 0.0 <= b <= 1.0
  }

  /** `RGB_SCALE_FLOAT`. */
  const RgbScale: real := 255.0

  /** `From<Rgb> for RgbScaled`: each channel divided by 255. */
  function RgbScaledFromRgb(rgb: Rgb): (s: RgbScaled)
    ensures s.InUnit()
    ensures rgb.r <= rgb.g <==> s.r.v <= s.g.v
    ensures rgb.g <= rgb.b <==> s.g.v <= s.b.v
    ensures rgb.r <= rgb.b <==> s.r.v <= s.b.v
  {
    RgbScaled(Num(rgb.r as real / RgbScale), Num(rgb.g as real / RgbScale), Num(rgb.b as real / RgbScale))
  }

  /**
   * `From<RgbScaled> for Rgb`: each channel is `(x * 255.0) as u8`, i.e. the
   * largest integer not above 255x, saturated to [0, 255]; NaN gives 0.
   */
  function RgbFromRgbScaled(s: RgbScaled): (rgb: Rgb)
    ensures s.r.Num? && 0.0 <= s.r.v <= 1.0 ==> rgb.r as real <= 255.0 * s.r.v < rgb.r as real + 1.0
    ensures s.g.Num? && 0.0 <= s.g.v <= 1.0 ==> rgb.g as real <= 255.0 * s.g.v < rgb.g as real + 1.0
    ensures s.b.Num? && 0.0 <= s.b.v <= 1.0 ==> rgb.b as real <= 255.0 * s.b.v < rgb.b as real + 1.0
    ensures s.r.NaN? ==> rgb.r == 0
    ensures s.g.NaN? ==> rgb.g == 0
    ensures s.b.NaN? ==> rgb.b == 0
    ensures s.r.Num? && s.r.v < 1.0 / 255.0 ==> rgb.r == 0
    ensures s.g.Num? && s.g.v < 1.0 / 255.0 ==> rgb.g == 0
    ensures s.b.Num? && s.b.v < 1.0 / 255.0 ==> rgb.b == 0
    ensures s.r.Num? && 1.0 <= s.r.v ==> rgb.r == 255
    ensures s.g.Num? && 1.0 <= s.g.v ==> rgb.g == 255
    ensures s.b.Num? && 1.0 <= s.b.v ==> rgb.b == 255
  {
    Rgb(CastU8(Scale(s.r, RgbScale)), CastU8(Scale(s.g, RgbScale)), CastU8(Scale(s.b, RgbScale)))
  }

  /** Scaling an 8-bit value to [0, 1] and casting it back gives that value. */
  lemma {:induction false} ChannelRoundTrip(n: U8)
    ensures CastU8(Scale(Num(n as real / RgbScale), RgbScale)) == n
  {
    assert n as real / RgbScale * RgbScale == n as real;
    TruncU8Integral(n);
  }

  /** `Rgb -> RgbScaled -> Rgb` is the identity (in exact arithmetic). */
  lemma {:induction false} RgbRoundTrip(rgb: Rgb)
    ensures RgbFromRgbScaled(RgbScaledFromRgb(rgb)) == rgb
  {
    ChannelRoundTrip(rgb.r);
    ChannelRoundTrip(rgb.g);
    ChannelRoundTrip(rgb.b);
  }
}
