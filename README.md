# iro colour conversions in Dafny

A model of the colour-space conversions of the Rust crate `iro`: 8-bit RGB
(`Rgb`), RGB scaled to [0, 1] (`RgbScaled`), CMYK with floating-point fields
(`Cmyk`) and whole percentages (`CmykInt`), and HSL with floating-point fields
(`Hsl`) and whole degrees and percentages (`HslInt`). Every `From`
conversion between them is a pure Dafny function. The proofs show:

- the ranges each conversion keeps;
- the hue sector that each branch of the RGB-to-HSL hue computation produces;
- the integer round trips `CmykInt -> Cmyk -> CmykInt`, `HslInt -> Hsl -> HslInt`
  and `Rgb -> RgbScaled -> Rgb`;
- the round trip `Rgb -> Cmyk -> Rgb`, exact for every 8-bit colour;
- the round trip `Rgb -> Hsl -> Rgb`, exact for every 8-bit colour only with
  the corrected saturation (see Findings). With the saturation as written,
  the round trip fails for dark colours: Rgb(0, 0, 128) comes back as
  Rgb(42, 42, 85);
- the crate's unit-test vectors.

Modules:

- `Numeric` (numeric.dfy): the `f32` values the conversions can meet
  (`Float`: a finite value, NaN or a signed infinity). It also holds the
  1e-3 tolerance, `round()`, and the saturating `as u8` / `as u16` casts.
- `RgbColor` (rgb.dfy): `Rgb`, `RgbScaled` and the two conversions between them.
- `CmykColor` (cmyk.dfy): `Cmyk`, `CmykInt` and the conversions from RGB and
  between the two CMYK forms.
- `HslColor` (hsl.dfy): `Hsl`, `HslInt`, the hue, lightness and saturation
  of an RGB colour, and the conversions from RGB and between the two HSL forms.
- `RgbConversions` (rgb_conversions.dfy): the conversions back to RGB from
  CMYK and HSL, including `hue_to_rgb`.
- `RoundTrips` (round_trips.dfy): the two colour round trips.
- `SaturationFinding` (findings.dfy): the saturation formula as written and
  a counterexample to it (see Findings).
- `RgbTests` (rgb_tests.dfy): the unit tests of src/rgb.rs as lemmas.

Floating-point arithmetic is modelled as exact real arithmetic. So a theorem
such as "Rgb -> Cmyk -> Rgb is the identity" holds for the model. For `f32`
it is the intended behaviour, not a guarantee.

`HslColor.HslFromRgb` is `From<Rgb> for Hsl` exactly as written, with the
saturation of src/hsl.rs:83. `HslColor.HslFromRgbCorrected` is the same
composition with the standard saturation. The HSL round-trip theorems are
about the corrected one.

The model follows the code where the code and its written description differ.
The one exception is the saturation bug in Findings: that member is
modelled both as written and corrected. Other differences:

- For a grey colour the code sets the saturation to the chroma, which is
  below 1e-3 and in exact arithmetic 0. It does not set it to 0 outright.
- For black, `Cmyk::from` divides 0 by 0, so c, m and y are NaN, not 0.
  Only the `as u8` cast in `CmykInt::from` turns them into 0.
- `Rgb::from(RgbScaled)` truncates `x * 255` and does not round it.

## Model

| member | source | states |
|---|---|---|
| Numeric.Min3 | src/hsl.rs:53 | `min_partial!` of three finite values is a lower bound and is one of them |
| Numeric.Max3 | src/hsl.rs:53 | `max_partial!` of three finite values is an upper bound and is one of them |
| Numeric.Abs | src/hsl.rs:59 | `f32::abs` is non-negative and is x or -x |
| Numeric.Quot | src/cmyk.rs:27-29 | `f32` division: finite exactly when the divisor is non-zero, and then quotient times divisor gives the dividend; NaN exactly for 0/0; otherwise an infinity with the dividend's sign |
| Numeric.OneMinus | src/rgb.rs:46-48 | `1.0 - x` on an `f32`: finite values sum to 1 with x, NaN stays NaN, infinities flip sign |
| Numeric.Scale | src/rgb.rs:36-38 | `x * f` on an `f32`: finite values multiply; NaN, and an infinity times 0, give NaN; an infinity times a non-zero factor is an infinity, negative exactly when the signs differ |
| Numeric.Round | src/hsl.rs:33-35 | `f32::round` rounds half away from zero: the result lies within one half of x, and a tie goes away from zero |
| Numeric.RoundF | src/cmyk.rs:60-62 | `round()` on an `f32`: a finite value goes to a whole number within one half of it, with ties away from zero; NaN and infinities are unchanged |
| Numeric.Trunc | src/rgb.rs:36-38 | the float-to-integer cast truncates toward zero |
| Numeric.Saturate | src/rgb.rs:36-38 | the cast saturates at 0 and at the type's maximum, and keeps the truncation in between |
| Numeric.TruncU8 | src/cmyk.rs:63 | `as u8` of a finite value: the floor in [0, 256), 0 below 1, 255 from 255 up |
| Numeric.TruncU16 | src/hsl.rs:33 | `as u16` of a finite value: the floor in [0, 65536), 0 below 1, 65535 from 65535 up |
| Numeric.CastU8 | src/rgb.rs:36-38 | `as u8` of any `f32`: NaN and negative infinity give 0, positive infinity gives 255, finite values as in TruncU8 |
| Numeric.RoundIntegral | src/hsl.rs:33 | rounding a whole number gives that number |
| Numeric.TruncU8Integral | src/cmyk.rs:63 | casting a whole number in 0..255 to `u8` gives that number |
| RgbColor.RgbScaledFromRgb | src/rgb.rs:23-31 | each channel divided by 255 lies in [0, 1], and the order of the channels is kept |
| RgbColor.RgbFromRgbScaled | src/rgb.rs:33-41 | each channel is cast on its own: a finite channel in [0, 1] becomes the floor of 255 times it; the cast saturates, so a channel below 1/255 (negatives included) gives 0 and a channel of 1 or more gives 255; a NaN channel gives 0 |
| RgbColor.ChannelRoundTrip | src/rgb.rs:26-38 | an 8-bit channel scaled down and multiplied back casts to itself |
| RgbColor.RgbRoundTrip | src/rgb.rs:23-41 | `Rgb -> RgbScaled -> Rgb` is the identity |
| CmykColor.CmykFromRgbScaled | src/cmyk.rs:21-32 | k is 1 minus the largest channel; in gamut k is in [0, 1]; below k = 1 all fields are in [0, 1] and one of c, m, y is 0; in gamut, at k = 1 c, m and y are NaN (0/0) |
| CmykColor.UnitQuotient | src/cmyk.rs:27-29 | for k <= x <= 1 and k < 1, `(x - k) / (1 - k)` lies in [0, 1] |
| CmykColor.CmykFromRgb | src/cmyk.rs:34-38 | k is in [0, 1]; k is 1 exactly for black; below that every field is in [0, 1]; black has NaN c, m and y |
| CmykColor.CmykIntFromCmyk | src/cmyk.rs:57-66 | in gamut, c, m and y become percentages at most 100, within one half of 100 times the field; a key in [0, 1] does the same whatever c, m and y are, so black's key of 1 gives 100; a NaN field gives 0 |
| CmykColor.CmykFromCmykInt | src/cmyk.rs:68-77 | percentages become finite non-negative fractions, in [0, 1] when every percentage is at most 100 |
| CmykColor.PercentRoundTrip | src/cmyk.rs:60-74 | a percentage divided by 100, scaled back, rounded and cast gives itself |
| CmykColor.CmykIntRoundTrip | src/cmyk.rs:57-77 | `CmykInt -> Cmyk -> CmykInt` is the identity |
| HslColor.HslIntFromHsl | src/hsl.rs:30-38 | a hue in [0, 360) rounds to a whole degree at most 360, within one half; saturation and lightness in [0, 1] round to percentages at most 100, within one half |
| HslColor.HslFromHslInt | src/hsl.rs:40-48 | whole degrees and percentages become non-negative values; a hue below 360 stays below 360.0 and percentages at most 100 give fractions at most 1 |
| HslColor.HslIntRoundTrip | src/hsl.rs:30-48 | `HslInt -> Hsl -> HslInt` is the identity |
| HslColor.Chroma | src/hsl.rs:53-54 | the chroma is non-negative and is 0 exactly when the three channels are equal |
| HslColor.Lightness | src/hsl.rs:79 | the lightness is the midpoint of the smallest and the largest channel |
| HslColor.Hue | src/hsl.rs:55-78 | the hue lies in [0, 360); it is 0 for a grey; the red branch gives [0, 60] or [300, 360), the green branch [60, 180], the blue branch [180, 300]; the `unreachable!()` branch cannot be taken |
| HslColor.SegmentBound | src/hsl.rs:60-72 | a difference of two channels divided by the chroma lies in [-1, 1] |
| HslColor.SaturationAsWritten | src/hsl.rs:80-84 | the formula as written: below the tolerance the chroma itself; otherwise s times (2 - 2L) is the chroma |
| HslColor.QuotientAtLeast | src/hsl.rs:83 | dividing a non-negative value by a divisor in (0, 1] gives at least that value |
| HslColor.Saturation | src/hsl.rs:80-84 | the corrected formula: below the tolerance the chroma itself; otherwise s times 2L (for L <= 1/2) or s times (2 - 2L) (for L >= 1/2) is the chroma, so s is at least the chroma |
| HslColor.InUnitConvertible | src/hsl.rs:80-84 | for channels in [0, 1] neither saturation formula divides by zero |
| HslColor.SaturationAsWrittenInUnit | src/hsl.rs:80-84 | for channels in [0, 1] the as-written saturation lies in [0, 1] |
| HslColor.SaturationInUnit | src/hsl.rs:80-84 | for channels in [0, 1] the corrected saturation lies in [0, 1] |
| HslColor.HslFromRgbScaledAsWritten | src/hsl.rs:50-91 | the code as written: hue in [0, 360); lightness between the smallest and largest channel; for a grey, hue 0 and saturation equal to the chroma; in gamut, saturation and lightness in [0, 1] |
| HslColor.HslFromRgbScaled | src/hsl.rs:50-91 | the same promises with the corrected saturation |
| HslColor.HslFromRgb | src/hsl.rs:93-97 | the code as written, with the as-written saturation: every 8-bit colour gives a hue in [0, 360) and saturation and lightness in [0, 1]; a grey gives hue 0 and saturation 0 |
| HslColor.HslFromRgbCorrected | src/hsl.rs:93-97 | the same composition with the corrected saturation, and the same promises |
| HslColor.GreyScaled | src/hsl.rs:52-54 | a grey's scaled channels are all n/255, and its chroma is 0 |
| HslColor.GreyHsl | src/hsl.rs:55-81 | as written, a grey of value n has hue 0, saturation 0 and lightness n/255 |
| HslColor.GreyHslCorrected | src/hsl.rs:55-81 | the same with the corrected saturation, which agrees on greys |
| RgbConversions.RgbScaledFromCmyk | src/rgb.rs:43-51 | finite CMYK gives finite channels and NaN fields give NaN channels; in gamut the channels are in [0, 1]; finite CMYK with k = 1 gives 0; all-zero CMYK gives 1 |
| RgbConversions.InUnitProducts | src/rgb.rs:46-48 | in gamut each product `(1 - x) * (1 - k)` lies in [0, 1] |
| RgbConversions.RgbFromCmyk | src/rgb.rs:53-57 | k = 1 gives black whatever c, m and y are, NaN included |
| RgbConversions.WrapHue | src/rgb.rs:63-67 | the single wrap of t adds or subtracts 1 or leaves t, leaves [0, 1] alone, and maps [-1, 2] into [0, 1] |
| RgbConversions.HueToRgb | src/rgb.rs:62-77 | for p <= q and t >= -1 the result lies in [p, q] |
| RgbConversions.Ramp | src/rgb.rs:69-73 | the interpolation `p + (q - p) * f` lies in [p, q] for f in [0, 1] |
| RgbConversions.UpperQ | src/rgb.rs:86-91 | for s and l in [0, 1], 0 <= p = 2l - q <= l <= q <= 1 |
| RgbConversions.RgbScaledFromHsl | src/rgb.rs:59-99 | channels are finite; below the saturation tolerance all three equal the lightness; a non-negative hue with s and l in [0, 1] gives channels in [0, 1] |
| RgbConversions.RgbFromHsl | src/rgb.rs:101-105 | a saturation below the tolerance gives a grey, the floor of 255 times the lightness |
| RoundTrips.ChannelCmykRoundTrip | src/cmyk.rs:23-29 | for k != 1, one channel through `(c - k) / (1 - k)` and back through `(1 - c) * (1 - k)` is unchanged |
| RoundTrips.RgbScaledCmykRoundTrip | src/rgb.rs:43-51 | `RgbScaled -> Cmyk -> RgbScaled` is the identity for finite channels whose largest channel is not 0 (in gamut: channels that are not all 0) |
| RoundTrips.RgbCmykRoundTrip | src/rgb.rs:53-57 | `Rgb -> Cmyk -> Rgb` is the identity for every 8-bit colour; black passes through NaN and comes back through k = 1 |
| RoundTrips.BoundsRecovered | src/rgb.rs:86-91 | with the corrected saturation, q is the largest channel and p the smallest |
| RoundTrips.UpperQHalfChroma | src/rgb.rs:86-90 | when the saturation has the standard relation to a chroma, q is the lightness plus half that chroma |
| RoundTrips.RedSector | src/rgb.rs:62-95 | for a chroma of at least the tolerance, when red is the largest channel, `hue_to_rgb` at h + 1/3, h and h - 1/3 gives back r, g and b |
| RoundTrips.GreenSector | src/rgb.rs:62-95 | the same for a chroma of at least the tolerance, when green is the largest channel and red is at least the tolerance below it |
| RoundTrips.BlueSector | src/rgb.rs:62-95 | the same for a chroma of at least the tolerance, when blue is the largest channel and red and green are each at least the tolerance below it |
| RoundTrips.RgbScaledHslRoundTrip | src/rgb.rs:59-99 | with the corrected saturation, for channels in [0, 1] whose distinct values differ by at least the tolerance, `RgbScaled -> Hsl -> RgbScaled` is the identity |
| RoundTrips.ChannelGap | src/rgb.rs:26 | two different 8-bit channels, scaled, differ by more than the tolerance |
| RoundTrips.ScaledRgbSeparated | src/rgb.rs:23-31 | every scaled 8-bit colour satisfies that separation |
| RoundTrips.RgbHslRoundTrip | src/hsl.rs:93-97 | with the corrected saturation (see Findings), `Rgb -> Hsl -> Rgb` is the identity for every 8-bit colour |
| SaturationFinding.SaturationsCompared | src/hsl.rs:83 | the formula as written equals the standard one exactly when L >= 1/2, and is smaller below that |
| SaturationFinding.NavyScaledFromRgb | src/rgb.rs:23-31 | Rgb(0, 0, 128) scales to (0, 0, 128/255) |
| SaturationFinding.NavyHsl | src/hsl.rs:50-91 | as written, (0, 0, 128/255) gives Hsl(240, 64/191, 64/255); with the correction, Hsl(240, 1, 64/255) |
| SaturationFinding.NavyAsWrittenBack | src/rgb.rs:59-105 | Hsl(240, 64/191, 64/255) converts to Rgb(42, 42, 85) |
| SaturationFinding.NavyRoundTripAsWritten | src/hsl.rs:83 | the code's `From<Rgb> for Hsl` sends Rgb(0, 0, 128) to Hsl(240, 64/191, 64/255), and converting back gives Rgb(42, 42, 85), so its round trip is not the identity |
| SaturationFinding.NavySaturated | src/hsl.rs:93-97 | with the correction, Rgb(0, 0, 128) gives Hsl(240, 1, 64/255) |
| SaturationFinding.CorrectedViaScaled | src/hsl.rs:93-97 | the corrected conversion from 8-bit RGB is the corrected conversion of the scaled form |
| RgbTests.RgbToCmykNoMagenta | src/rgb.rs:113 | Rgb(80, 191, 100) gives CmykInt(58, 0, 48, 25) |
| RgbTests.RgbToCmykWhite | src/rgb.rs:114 | white gives CmykInt(0, 0, 0, 0) |
| RgbTests.RgbToCmykBlack | src/rgb.rs:115 | black gives Cmyk(NaN, NaN, NaN, 1), which becomes CmykInt(0, 0, 0, 100) |
| RgbTests.CmykToRgbNoMagenta | src/rgb.rs:120 | Cmyk(0.58, 0, 0.47, 0.25) gives Rgb(80, 191, 101) |
| RgbTests.ScaledWhite | src/rgb.rs:33-41 | full-intensity scaled channels cast to 255 |
| RgbTests.CmykToRgbWhite | src/rgb.rs:121 | Cmyk(0, 0, 0, 0) gives white |
| RgbTests.CmykToRgbBlack | src/rgb.rs:122 | Cmyk(0, 0, 0, 1) gives black |
| RgbTests.HslToRgbGreen | src/rgb.rs:127 | Hsl(131, 0.46, 0.53) gives Rgb(80, 190, 100) |
| RgbTests.HslToRgbWhiteBlack | src/rgb.rs:128-129 | Hsl(0, 0, 1) gives white and Hsl(0, 0, 0) gives black |
| RgbTests.GreenHue | src/hsl.rs:53-79 | Rgb(80, 190, 100) has hue 1440/11, chroma 110/255 and lightness 135/255 |
| RgbTests.RgbToHslGreen | src/rgb.rs:134 | Rgb(80, 190, 100) gives HslInt(131, 46, 53), with the code as written and with the corrected saturation |
| RgbTests.GreyHslInt | src/rgb.rs:135-138 | as written, a grey of value n gives HslInt(0, 0, n/255 as a rounded percentage) |
| RgbTests.RgbToHslWhiteBlack | src/rgb.rs:135-136 | with the code as written, white gives HslInt(0, 0, 100) and black gives HslInt(0, 0, 0) |

## Left out

- IEEE-754 `f32` rounding: every operation is exact over the reals. Only the
  NaN and infinities that the conversions produce in practice are modelled,
  through `Float`. These are 0/0 and x/0 in `Cmyk::from`, and what they
  become in later products and casts.
- The NaN behaviour of `min_partial!` and `max_partial!` from the `min_max`
  crate, which is not part of this model. The conversions to HSL and CMYK
  therefore require finite channels. Cmyk.k and every Hsl field are plain
  reals for the same reason.
- HslColor.HslFromRgbScaled and HslColor.HslFromRgbScaledAsWritten: these
  require a non-zero saturation denominator. A zero denominator is reachable
  only with channels outside [0, 1], where `f32` would give an infinity.
- RgbConversions.RgbScaledFromHsl: the range promise is stated for
  non-negative hues only. For a hue below -240 degrees, the single wrap in
  `hue_to_rgb` can leave t below 0.
- `Cmyk::new` and `CmykInt::new` (src/cmyk.rs:15-19, 51-55): private
  constructors that nothing calls.
- The derived `Debug` and `PartialEq`: Dafny's datatype equality takes the
  place of `PartialEq`.
- src/lib.rs (module declarations only), the example program under
  examples/, and the commented-out JavaScript at src/hsl.rs:99-112.
- The doc comments at src/cmyk.rs:42 and src/hsl.rs:22 say the fields range
  up to 255. The conversions produce percentages at most 100, and that is
  what the model proves.

## Findings

| source | as written | input that shows it | evidently intended | confidence | as-written member | corrected member |
|---|---|---|---|---|---|---|
| src/hsl.rs:83 | saturation is `chroma / (1 - (2L - 1))`, without an absolute value, so it is too small whenever L < 1/2 | Rgb(0, 0, 128) gives Hsl(240, 64/191, 64/255), and that converts back to Rgb(42, 42, 85) | `chroma / (1 - abs(2L - 1))`, so that Rgb -> Hsl -> Rgb is the identity | high; not executed | SaturationFinding.NavyRoundTripAsWritten | RoundTrips.RgbHslRoundTrip |
