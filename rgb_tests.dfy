/**
 * The test vectors of src/rgb.rs:113-139, proved in exact arithmetic.
 */
module RgbTests {
  import opened Numeric
  import opened RgbColor
  import opened CmykColor
  import opened HslColor
  import opened RgbConversions

  /** `test_rgb_to_cmyk`, case "no_m": no magenta, rounding 47.6 up to 48. */
  lemma RgbToCmykNoMagenta()
    ensures CmykIntFromCmyk(CmykFromRgb(Rgb(80, 191, 100))) == CmykInt(58, 0, 48, 25)
  {
    var s := RgbScaledFromRgb(Rgb(80, 191, 100));
    assert s == RgbScaled(Num(80.0 / 255.0), Num(191.0 / 255.0), Num(100.0 / 255.0));
    assert Min3(175.0 / 255.0, 64.0 / 255.0, 155.0 / 255.0) == 64.0 / 255.0;
    var cmyk := CmykFromRgb(Rgb(80, 191, 100));
    assert cmyk == Cmyk(Num(111.0 / 191.0), Num(0.0), Num(91.0 / 191.0), 64.0 / 255.0);
    assert Round(11100.0 / 191.0) == 58;
    assert Round(9100.0 / 191.0) == 48;
    assert Round(6400.0 / 255.0) == 25;
  }

  /** `test_rgb_to_cmyk`, case "white". */
  lemma RgbToCmykWhite()
    ensures CmykIntFromCmyk(CmykFromRgb(Rgb(255, 255, 255))) == CmykInt(0, 0, 0, 0)
  {
    assert CmykFromRgb(Rgb(255, 255, 255)) == Cmyk(Num(0.0), Num(0.0), Num(0.0), 0.0);
  }

  /** `test_rgb_to_cmyk`, case "black": c, m and y are NaN and cast to 0. */
  lemma RgbToCmykBlack()
    ensures CmykIntFromCmyk(CmykFromRgb(Rgb(0, 0, 0))) == CmykInt(0, 0, 0, 100)
  {
    assert CmykFromRgb(Rgb(0, 0, 0)) == Cmyk(NaN, NaN, NaN, 1.0);
  }

  /** `test_cmyk_to_rgb`, case "no_m". */
  lemma CmykToRgbNoMagenta()
    ensures RgbFromCmyk(Cmyk(Num(0.58), Num(0.0), Num(0.47), 0.25)) == Rgb(80, 191, 101)
  {
    assert RgbScaledFromCmyk(Cmyk(Num(0.58), Num(0.0), Num(0.47), 0.25))
      == RgbScaled(Num(0.315), Num(0.75), Num(0.3975));
    assert TruncU8(0.315 * 255.0) == 80;
    assert TruncU8(0.75 * 255.0) == 191;
    assert TruncU8(0.3975 * 255.0) == 101;
  }

  /** Full-intensity scaled channels cast back to 255. */
  lemma ScaledWhite()
    ensures RgbFromRgbScaled(RgbScaled(Num(1.0), Num(1.0), Num(1.0))) == Rgb(255, 255, 255)
  {
  }

  /** `test_cmyk_to_rgb`, case "white". */
  lemma CmykToRgbWhite()
    ensures RgbFromCmyk(Cmyk(Num(0.0), Num(0.0), Num(0.0), 0.0)) == Rgb(255, 255, 255)
  {
    ScaledWhite();
  }

  /** `test_cmyk_to_rgb`, case "black". */
  lemma CmykToRgbBlack()
    ensures RgbFromCmyk(Cmyk(Num(0.0), Num(0.0), Num(0.0), 1.0)) == Rgb(0, 0, 0)
  {
  }

  /** `test_hsl_to_rgb`, case "1": q = 0.7462 and p = 0.3138. */
  lemma HslToRgbGreen()
    ensures RgbFromHsl(Hsl(131.0, 0.46, 0.53)) == Rgb(80, 190, 100)
  {
    var q := UpperQ(0.46, 0.53);
    assert q == 0.7462;
    var p := 2.0 * 0.53 - q;
    assert p == 0.3138;
    assert HueToRgb(p, q, 131.0 / 360.0 + 1.0 / 3.0) == p;
    assert HueToRgb(p, q, 131.0 / 360.0) == q;
    assert HueToRgb(p, q, 131.0 / 360.0 - 1.0 / 3.0) == p + (q - p) * (11.0 / 60.0);
    assert RgbScaledFromHsl(Hsl(131.0, 0.46, 0.53))
      == RgbScaled(Num(p), Num(q), Num(p + (q - p) * (11.0 / 60.0)));
    assert TruncU8(p * 255.0) == 80;
    assert TruncU8(q * 255.0) == 190;
    assert TruncU8((p + (q - p) * (11.0 / 60.0)) * 255.0) == 100;
  }

  /** `test_hsl_to_rgb`, cases "white" and "black": achromatic greys. */
  lemma HslToRgbWhiteBlack()
    ensures RgbFromHsl(Hsl(0.0, 0.0, 1.0)) == Rgb(255, 255, 255)
    ensures RgbFromHsl(Hsl(0.0, 0.0, 0.0)) == Rgb(0, 0, 0)
  {
    assert RgbScaledFromHsl(Hsl(0.0, 0.0, 1.0)) == RgbScaled(Num(1.0), Num(1.0), Num(1.0));
    assert RgbScaledFromHsl(Hsl(0.0, 0.0, 0.0)) == RgbScaled(Num(0.0), Num(0.0), Num(0.0));
  }

  /** The scaled form of Rgb(80, 190, 100): green sector, lightness above 1/2. */
  const GreenScaled: RgbScaled := RgbScaled(Num(80.0 / 255.0), Num(190.0 / 255.0), Num(100.0 / 255.0))

  lemma GreenHue()
    ensures RgbScaledFromRgb(Rgb(80, 190, 100)) == GreenScaled
    ensures Hue(80.0 / 255.0, 190.0 / 255.0, 100.0 / 255.0) == 1440.0 / 11.0
    ensures Chroma(80.0 / 255.0, 190.0 / 255.0, 100.0 / 255.0) == 110.0 / 255.0
    ensures Lightness(80.0 / 255.0, 190.0 / 255.0, 100.0 / 255.0) == 135.0 / 255.0
  {
    assert Max3(80.0 / 255.0, 190.0 / 255.0, 100.0 / 255.0) == 190.0 / 255.0;
    assert Min3(80.0 / 255.0, 190.0 / 255.0, 100.0 / 255.0) == 80.0 / 255.0;
  }

  /**
   * `test_rgb_to_hsl`, case "11": hue 1440/11 rounds to 131, saturation
   * 11/24 to 46 percent, lightness 9/17 to 53 percent. The lightness is above
   * 1/2, so the as-written saturation gives the same result.
   */
  lemma RgbToHslGreen()
    ensures HslIntFromHsl(HslFromRgb(Rgb(80, 190, 100))) == HslInt(131, 46, 53)
    ensures HslIntFromHsl(HslFromRgbCorrected(Rgb(80, 190, 100))) == HslInt(131, 46, 53)
  {
    GreenHue();
    assert Saturation(110.0 / 255.0, 135.0 / 255.0) == 11.0 / 24.0;
    assert SaturationAsWritten(110.0 / 255.0, 135.0 / 255.0) == 11.0 / 24.0;
    assert HslFromRgb(Rgb(80, 190, 100)) == HslFromRgbScaledAsWritten(GreenScaled);
    assert HslFromRgbCorrected(Rgb(80, 190, 100)) == HslFromRgbScaled(GreenScaled);
    assert HslFromRgbScaled(GreenScaled) == Hsl(1440.0 / 11.0, 11.0 / 24.0, 135.0 / 255.0);
    assert HslFromRgbScaledAsWritten(GreenScaled) == Hsl(1440.0 / 11.0, 11.0 / 24.0, 135.0 / 255.0);
    assert Round(1440.0 / 11.0) == 131;
    assert Round(11.0 / 24.0 * 100.0) == 46;
    assert Round(135.0 / 255.0 * 100.0) == 53;
  }

  /** A grey of 8-bit value n becomes hue 0, saturation 0 and n/255 as a rounded percentage. */
  lemma GreyHslInt(n: U8)
    ensures HslIntFromHsl(HslFromRgb(Rgb(n, n, n))) == HslInt(0, 0, TruncU8(Round(n as real / RgbScale * 100.0) as real))
  {
    GreyHsl(n);
  }

  /**
   * `test_rgb_to_hsl`, cases "white" and "black": hue and saturation 0,
   * lightness 100 and 0 percent. The grey value is a parameter only so that
   * the conversion stays symbolic: stated on the literal colours, the
   * verifier unfolds `HslFromRgb` on constants and does not finish.
   */
  lemma RgbToHslWhiteBlack(n: U8)
    ensures n == 255 ==> HslIntFromHsl(HslFromRgb(Rgb(n, n, n))) == HslInt(0, 0, 100)
    ensures n == 0 ==> HslIntFromHsl(HslFromRgb(Rgb(n, n, n))) == HslInt(0, 0, 0)
  {
    GreyHslInt(n);
    assert TruncU8(Round(255 as real / RgbScale * 100.0) as real) == 100;
    assert TruncU8(Round(0 as real / RgbScale * 100.0) as real) == 0;
  }
}
