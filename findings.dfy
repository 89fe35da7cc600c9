/**
 * The saturation at src/hsl.rs:83 divides the chroma by `1 - (2L - 1)`; the
 * standard formula divides by `1 - |2L - 1|`. The two agree from L = 1/2 up
 * and the code's value is too small below it, which breaks the RGB round
 * trip for dark colours.
 */
module SaturationFinding {
  import opened Numeric
  import opened RgbColor
  import opened HslColor
  import opened RgbConversions

  /**
   * The as-written saturation equals the standard one exactly when the
   * lightness is at least 1/2; below, for a chromatic colour, it is smaller.
   */
  lemma {:induction false} SaturationsCompared(chroma: real, l: real)
    requires chroma >= Eps && 0.0 < l < 1.0
    ensures SaturationAsWritten(chroma, l) == Saturation(chroma, l) <==> 0.5 <= l
    ensures l < 0.5 ==> SaturationAsWritten(chroma, l) < Saturation(chroma, l)
  {
    var w := SaturationAsWritten(chroma, l);
    var s := Saturation(chroma, l);
    if l < 0.5 {
      assert w * (2.0 - 2.0 * l) == chroma;
      assert s * (2.0 * l) == chroma;
      assert (s - w) * (2.0 * l) == w * (2.0 - 2.0 * l) - w * (2.0 * l);
      assert w * (2.0 - 4.0 * l) > 0.0 by {
        assert w > 0.0 by { ProductSign(-w, 2.0 - 2.0 * l); }
        ProductSign(w, 2.0 - 4.0 * l);
        assert w * (2.0 - 4.0 * l) != 0.0;
      }
      assert s - w > 0.0 by { ProductSign(w - s, 2.0 * l); }
    }
  }

  /** Navy in scaled form: blue 128/255, the other channels 0. */
  const NavyScaled: RgbScaled := RgbScaled(Num(0.0), Num(0.0), Num(128.0 / 255.0))

  lemma NavyScaledFromRgb()
    ensures RgbScaledFromRgb(Rgb(0, 0, 128)) == NavyScaled
  {
  }

  /** As written, navy's saturation is 64/191 where the standard formula gives 1. */
  lemma NavyHsl()
    ensures SaturationAsWrittenDefined(Chroma(0.0, 0.0, 128.0 / 255.0), Lightness(0.0, 0.0, 128.0 / 255.0))
    ensures HslFromRgbScaledAsWritten(NavyScaled) == Hsl(240.0, 64.0 / 191.0, 64.0 / 255.0)
    ensures HslFromRgbScaled(NavyScaled) == Hsl(240.0, 1.0, 64.0 / 255.0)
  {
    assert Hue(0.0, 0.0, 128.0 / 255.0) == 240.0;
    assert Lightness(0.0, 0.0, 128.0 / 255.0) == 64.0 / 255.0;
    assert Chroma(0.0, 0.0, 128.0 / 255.0) == 128.0 / 255.0;
    assert SaturationAsWritten(128.0 / 255.0, 64.0 / 255.0) == 64.0 / 191.0;
    assert Saturation(128.0 / 255.0, 64.0 / 255.0) == 1.0;
  }

  /** The grey-blue that navy's as-written HSL converts back to. */
  lemma NavyAsWrittenBack()
    ensures RgbFromHsl(Hsl(240.0, 64.0 / 191.0, 64.0 / 255.0)) == Rgb(42, 42, 85)
  {
    var hsl := Hsl(240.0, 64.0 / 191.0, 64.0 / 255.0);
    var q := UpperQ(hsl.s, hsl.l);
    assert q == 64.0 / 191.0;
    var p := 2.0 * hsl.l - q;
    assert p == 8128.0 / 48705.0;
    assert HueToRgb(p, q, 240.0 / 360.0 + 1.0 / 3.0) == p;
    assert HueToRgb(p, q, 240.0 / 360.0) == p;
    assert HueToRgb(p, q, 240.0 / 360.0 - 1.0 / 3.0) == q;
    assert RgbScaledFromHsl(hsl) == RgbScaled(Num(p), Num(p), Num(q));
    assert CastU8(Scale(Num(p), RgbScale)) == 42;
    assert CastU8(Scale(Num(q), RgbScale)) == 85;
  }

  /**
   * Navy, Rgb(0, 0, 128), through the as-written conversion: its lightness
   * 64/255 gets saturation 64/191 instead of 1, and converting back gives
   * Rgb(42, 42, 85).
   */
  lemma NavyRoundTripAsWritten()
    ensures HslFromRgb(Rgb(0, 0, 128)) == Hsl(240.0, 64.0 / 191.0, 64.0 / 255.0)
    ensures RgbFromHsl(HslFromRgb(Rgb(0, 0, 128))) == Rgb(42, 42, 85)
  {
    NavyScaledFromRgb();
    assert HslFromRgb(Rgb(0, 0, 128)) == HslFromRgbScaledAsWritten(NavyScaled);
    NavyHsl();
    NavyAsWrittenBack();
  }

  /**
   * With the standard saturation navy is fully saturated (and, by
   * `RoundTrips.RgbHslRoundTrip`, comes back unchanged).
   */
  lemma NavySaturated()
    ensures HslFromRgbCorrected(Rgb(0, 0, 128)) == Hsl(240.0, 1.0, 64.0 / 255.0)
  {
    NavyScaledFromRgb();
    CorrectedViaScaled(Rgb(0, 0, 128));
    NavyHsl();
  }

  /** `HslFromRgbCorrected` goes through the scaled form. */
  lemma CorrectedViaScaled(rgb: Rgb)
    ensures Convertible(RgbScaledFromRgb(rgb))
    ensures HslFromRgbCorrected(rgb) == HslFromRgbScaled(RgbScaledFromRgb(rgb))
  {
    InUnitConvertible(RgbScaledFromRgb(rgb));
  }
}
