/**
 * Round trips through the float forms, in exact arithmetic: RGB through CMYK
 * and RGB through HSL, with the achromatic and black special cases.
 */
module RoundTrips {
  import opened Numeric
  import opened RgbColor
  import opened CmykColor
  import opened HslColor
  import opened RgbConversions

  /** One channel through `1 - x`, the CMYK quotient by `1 - k` and back. */
  lemma ChannelCmykRoundTrip(x: real, k: real)
    requires k != 1.0
    ensures Scale(OneMinus(Quot(1.0 - x - k, 1.0 - k)), 1.0 - k) == Num(x)
  {
    var d := 1.0 - k;
    var u := (1.0 - x - k) / d;
    assert u * d == 1.0 - x - k;
    assert (1.0 - u) * d == x;
  }

  /**
   * `RgbScaled -> Cmyk -> RgbScaled` returns the original finite channels
   * whenever the key is not 1, i.e. whenever the largest channel is not 0. In
   * gamut that means some channel is non-zero.
   */
  lemma {:induction false} RgbScaledCmykRoundTrip(rgb: RgbScaled)
    requires rgb.Finite() && Max3(rgb.r.v, rgb.g.v, rgb.b.v) != 0.0
    ensures RgbScaledFromCmyk(CmykFromRgbScaled(rgb)) == rgb
  {
    var k := CmykFromRgbScaled(rgb).k;
    ChannelCmykRoundTrip(rgb.r.v, k);
    ChannelCmykRoundTrip(rgb.g.v, k);
    ChannelCmykRoundTrip(rgb.b.v, k);
  }

  /**
   * `Rgb -> Cmyk -> Rgb` is the identity for every 8-bit colour. For black the
   * intermediate c, m, y are NaN and the `as u8` casts turn them into 0.
   */
  lemma {:induction false} RgbCmykRoundTrip(rgb: Rgb)
    ensures RgbFromCmyk(CmykFromRgb(rgb)) == rgb
  {
    if rgb != Rgb(0, 0, 0) {
      RgbScaledCmykRoundTrip(RgbScaledFromRgb(rgb));
      RgbRoundTrip(rgb);
    }
  }

  /**
   * Every channel is the maximum or at least the tolerance below it, so that
   * the tolerant tests of the hue sectors pick a channel that is the maximum.
   */
  predicate Separated(r: real, g: real, b: real) {
    var max := Max3(r, g, b);
    && (r == max || max - r >= Eps)
    && (g == max || max - g >= Eps)
    && (b == max || max - b >= Eps)
  }

  /**
   * With the standard saturation, the `q` and `p` that `From<Hsl> for
   * RgbScaled` computes are the largest and the smallest channel again.
   */
  lemma {:induction false} BoundsRecovered(r: real, g: real, b: real)
    requires ChannelsInUnit(r, g, b) && Chroma(r, g, b) >= Eps
    ensures SaturationDefined(Chroma(r, g, b), Lightness(r, g, b))
    ensures Saturation(Chroma(r, g, b), Lightness(r, g, b)) >= Eps
    ensures UpperQ(Saturation(Chroma(r, g, b), Lightness(r, g, b)), Lightness(r, g, b)) == Max3(r, g, b)
    ensures 2.0 * Lightness(r, g, b) - UpperQ(Saturation(Chroma(r, g, b), Lightness(r, g, b)), Lightness(r, g, b)) == Min3(r, g, b)
  {
    var c := Chroma(r, g, b);
    var l := Lightness(r, g, b);
    assert 0.0 < l < 1.0;
    UpperQHalfChroma(Saturation(c, l), l, c);
  }

  /**
   * When the saturation has the standard relation to a chroma c, `q` is the
   * lightness plus half the chroma.
   */
  lemma UpperQHalfChroma(s: real, l: real, c: real)
    requires 0.0 < l < 1.0
    requires l <= 0.5 ==> s * (2.0 * l) == c
    requires 0.5 <= l ==> s * (2.0 - 2.0 * l) == c
    ensures UpperQ(s, l) == l + c / 2.0
  {
    if l < 0.5 {
      assert l * s == c / 2.0;
    } else {
      assert (1.0 - l) * s == c / 2.0;
    }
  }

  /** Sector of red: r is the maximum. */
  lemma {:induction false} RedSector(r: real, g: real, b: real)
    requires Chroma(r, g, b) >= Eps && r == Max3(r, g, b)
    ensures var h := Hue(r, g, b) / 360.0;
      && HueToRgb(Min3(r, g, b), r, h + 1.0 / 3.0) == r
      && HueToRgb(Min3(r, g, b), r, h) == g
      && HueToRgb(Min3(r, g, b), r, h - 1.0 / 3.0) == b
  {
    var c := Chroma(r, g, b);
    var u := (g - b) / c;
    assert u * c == g - b;
    SegmentBound(g, b, r, c);
    if g >= b {
      assert Min3(r, g, b) == b;
      assert 0.0 <= u by { ProductSign(-u, c); }
      assert Hue(r, g, b) / 360.0 == u / 6.0;
    } else {
      assert Min3(r, g, b) == g;
      assert u < 0.0 by { ProductSign(u, c); }
      assert Hue(r, g, b) / 360.0 == 1.0 + u / 6.0;
    }
  }

  /** Sector of green: r is at least the tolerance below the maximum, g is the maximum. */
  lemma {:induction false} GreenSector(r: real, g: real, b: real)
    requires Chroma(r, g, b) >= Eps && Max3(r, g, b) - r >= Eps && g == Max3(r, g, b)
    ensures var h := Hue(r, g, b) / 360.0;
      && HueToRgb(Min3(r, g, b), g, h + 1.0 / 3.0) == r
      && HueToRgb(Min3(r, g, b), g, h) == g
      && HueToRgb(Min3(r, g, b), g, h - 1.0 / 3.0) == b
  {
    var c := Chroma(r, g, b);
    var u := (b - r) / c;
    assert u * c == b - r;
    SegmentBound(b, r, g, c);
    assert Hue(r, g, b) / 360.0 == (u + 2.0) / 6.0;
    if b >= r {
      assert Min3(r, g, b) == r;
      assert 0.0 <= u by { ProductSign(-u, c); }
    } else {
      assert Min3(r, g, b) == b;
      assert u < 0.0 by { ProductSign(u, c); }
    }
  }

  /** Sector of blue: r and g are at least the tolerance below the maximum, b is the maximum. */
  lemma {:induction false} BlueSector(r: real, g: real, b: real)
    requires Chroma(r, g, b) >= Eps && Max3(r, g, b) - r >= Eps && Max3(r, g, b) - g >= Eps
    requires b == Max3(r, g, b)
    ensures var h := Hue(r, g, b) / 360.0;
      && HueToRgb(Min3(r, g, b), b, h + 1.0 / 3.0) == r
      && HueToRgb(Min3(r, g, b), b, h) == g
      && HueToRgb(Min3(r, g, b), b, h - 1.0 / 3.0) == b
  {
    var c := Chroma(r, g, b);
    var u := (r - g) / c;
    assert u * c == r - g;
    SegmentBound(r, g, b, c);
    assert Hue(r, g, b) / 360.0 == (u + 4.0) / 6.0;
    if r > g {
      assert Min3(r, g, b) == g;
      assert 0.0 < u by { ProductSign(-u, c); }
    } else {
      assert Min3(r, g, b) == r;
      assert u <= 0.0 by { ProductSign(u, c); }
    }
  }

  /**
   * `RgbScaled -> Hsl -> RgbScaled`, with the standard saturation, returns the
   * original channels whenever they are in [0, 1] and separated.
   */
  lemma {:induction false} RgbScaledHslRoundTrip(rgb: RgbScaled)
    requires rgb.InUnit() && Separated(rgb.r.v, rgb.g.v, rgb.b.v)
    ensures Convertible(rgb) && RgbScaledFromHsl(HslFromRgbScaled(rgb)) == rgb
  {
    var (r, g, b) := (rgb.r.v, rgb.g.v, rgb.b.v);
    InUnitConvertible(rgb);
    if Chroma(r, g, b) < Eps {
      assert r == g == b;
    } else {
      BoundsRecovered(r, g, b);
      var max := Max3(r, g, b);
      if r == max {
        RedSector(r, g, b);
      } else if g == max {
        GreenSector(r, g, b);
      } else {
        BlueSector(r, g, b);
      }
    }
  }

  /** A strictly smaller 8-bit channel is at least 1/255, above the tolerance, below. */
  lemma ChannelGap(x: U8, y: U8)
    ensures x < y ==> y as real / RgbScale - x as real / RgbScale >= Eps
  {
    if x < y {
      assert y as real / RgbScale - x as real / RgbScale == (y - x) as real / RgbScale;
    }
  }

  /** The scaled form of every 8-bit colour is separated. */
  lemma {:induction false} ScaledRgbSeparated(rgb: Rgb)
    ensures var s := RgbScaledFromRgb(rgb); Separated(s.r.v, s.g.v, s.b.v)
  {
    ChannelGap(rgb.r, rgb.g);
    ChannelGap(rgb.r, rgb.b);
    ChannelGap(rgb.g, rgb.r);
    ChannelGap(rgb.g, rgb.b);
    ChannelGap(rgb.b, rgb.r);
    ChannelGap(rgb.b, rgb.g);
  }

  /**
   * `Rgb -> Hsl -> Rgb`, with the standard saturation, is the identity for
   * every 8-bit colour.
   */
  lemma {:induction false} RgbHslRoundTrip(rgb: Rgb)
    ensures RgbFromHsl(HslFromRgbCorrected(rgb)) == rgb
  {
    var s := RgbScaledFromRgb(rgb);
    ScaledRgbSeparated(rgb);
    RgbScaledHslRoundTrip(s);
    RgbRoundTrip(rgb);
  }
}
