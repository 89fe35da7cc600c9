/**
 * The CMYK model (src/cmyk.rs): the float form with the subtractive formulas
 * from scaled RGB, and the integer percentage form.
 */
module CmykColor {
  import opened Numeric
  import opened RgbColor

  /**
   * `Cmyk`: four `f32` fields, nominally in [0, 1]. The key `k` is always a
   * finite minimum; `c`, `m` and `y` are quotients by `1 - k` and are NaN for
   * black, where that divisor is zero.
   */
  datatype Cmyk = Cmyk(c: Float, m: Float, y: Float, k: real)
  {
    predicate Finite() { c.Num? && m.Num? && y.Num? }

    predicate InUnit() {
      && Finite()
      && 0.0 <= c.v <= 1.0 && 0.0 <= m.v <= 1.0 && 0.0 <= y.v <= 1.0 && 0.0 <= k <= 1.0
    }
  }

  /** `CmykInt`: four 8-bit percentages (the code scales by 100, not 255). */
  datatype CmykInt = CmykInt(c: U8, m: U8, y: U8, k: U8)

  /**
   * `From<RgbScaled> for Cmyk`: `k = min(1-r, 1-g, 1-b)` and each of c, m, y
   * is `(x' - k) / (1 - k)` for its complement `x'`. There is no black case:
   * for black the divisions are 0/0.
   */
  function CmykFromRgbScaled(rgb: RgbScaled): (cmyk: Cmyk)
    requires rgb.Finite()
    ensures cmyk.k == 1.0 - Max3(rgb.r.v, rgb.g.v, rgb.b.v)
    ensures rgb.InUnit() ==> 0.0 <= cmyk.k <= 1.0
    ensures rgb.InUnit() && cmyk.k < 1.0 ==>
      && cmyk.InUnit()
      && (cmyk.c == Num(0.0) || cmyk.m == Num(0.0) || cmyk.y == Num(0.0))
    ensures rgb.InUnit() && cmyk.k == 1.0 ==> cmyk.c.NaN? && cmyk.m.NaN? && cmyk.y.NaN?
  {
    var c := 1.0 - rgb.r.v;
    var m := 1.0 - rgb.g.v;
    var y := 1.0 - rgb.b.v;
    var k := Min3(c, m, y);
    UnitQuotient(c, k);
    UnitQuotient(m, k);
    UnitQuotient(y, k);
    Cmyk(Quot(c - k, 1.0 - k), Quot(m - k, 1.0 - k), Quot(y - k, 1.0 - k), k)
  }

  /** The quotient `(x - k) / (1 - k)` lies in [0, 1] when `k <= x <= 1` and `k < 1`. */
  lemma UnitQuotient(x: real, k: real)
    ensures k <= x <= 1.0 && k < 1.0 ==> 0.0 <= (x - k) / (1.0 - k) <= 1.0
  {
    if k <= x <= 1.0 && k < 1.0 {
      DivUnit(x - k, 1.0 - k);
    }
  }

  /** `From<Rgb> for Cmyk`: via the scaled form. */
  function CmykFromRgb(rgb: Rgb): (cmyk: Cmyk)
    ensures 0.0 <= cmyk.k <= 1.0
    ensures cmyk.k < 1.0 ==> cmyk.InUnit()
    ensures cmyk.k == 1.0 <==> rgb == Rgb(0, 0, 0)
    ensures cmyk.k == 1.0 ==> cmyk.c.NaN? && cmyk.m.NaN? && cmyk.y.NaN?
  {
    CmykFromRgbScaled(RgbScaledFromRgb(rgb))
  }

  /**
   * `From<Cmyk> for CmykInt`: each field is `(x * 100.0).round() as u8`, the
   * nearest percentage, saturated; a NaN field gives 0.
   */
  function CmykIntFromCmyk(cmyk: Cmyk): (n: CmykInt)
    ensures cmyk.InUnit() ==> n.c <= 100 && n.m <= 100 && n.y <= 100
    ensures cmyk.InUnit() ==>
      && -0.5 <= n.c as real - 100.0 * cmyk.c.v <= 0.5
      && -0.5 <= n.m as real - 100.0 * cmyk.m.v <= 0.5
      && -0.5 <= n.y as real - 100.0 * cmyk.y.v <= 0.5
    ensures 0.0 <= cmyk.k <= 1.0 ==> n.k <= 100 && -0.5 <= n.k as real - 100.0 * cmyk.k <= 0.5
    ensures cmyk.c.NaN? ==> n.c == 0
    ensures cmyk.m.NaN? ==> n.m == 0
    ensures cmyk.y.NaN? ==> n.y == 0
  {
    CmykInt(
      CastU8(RoundF(Scale(cmyk.c, 100.0))),
      CastU8(RoundF(Scale(cmyk.m, 100.0))),
      CastU8(RoundF(Scale(cmyk.y, 100.0))),
      TruncU8(Round(cmyk.k * 100.0) as real))
  }

  /** `From<CmykInt> for Cmyk`: each percentage divided by 100. */
  function CmykFromCmykInt(n: CmykInt): (cmyk: Cmyk)
    ensures cmyk.Finite() && 0.0 <= cmyk.k
    ensures n.c <= 100 && n.m <= 100 && n.y <= 100 && n.k <= 100 ==> cmyk.InUnit()
  {
    Cmyk(Num(n.c as real / 100.0), Num(n.m as real / 100.0), Num(n.y as real / 100.0), n.k as real / 100.0)
  }

  /** A percentage scaled to [0, 1] and rounded back is unchanged. */
  lemma {:induction false} PercentRoundTrip(n: U8)
    ensures CastU8(RoundF(Scale(Num(n as real / 100.0), 100.0))) == n
    ensures TruncU8(Round(n as real / 100.0 * 100.0) as real) == n
  {
    assert n as real / 100.0 * 100.0 == n as real;
    RoundIntegral(n);
    TruncU8Integral(n);
  }

  /** `CmykInt -> Cmyk -> CmykInt` is the identity for every 8-bit field. */
  lemma {:induction false} CmykIntRoundTrip(n: CmykInt)
    ensures CmykIntFromCmyk(CmykFromCmykInt(n)) == n
  {
    PercentRoundTrip(n.c);
    PercentRoundTrip(n.m);
    PercentRoundTrip(n.y);
    PercentRoundTrip(n.k);
  }
}
