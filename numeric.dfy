/**
 * The numeric idealisation shared by every conversion: Rust's `f32` is modelled
 * by exact reals, extended with IEEE-754's non-finite values only where the
 * library's own arithmetic can produce them; Rust's float-to-integer casts and
 * `f32::round` are written out.
 */
module Numeric {

  /** An `f32`: an exact real when finite, otherwise NaN or a signed infinity. */
  datatype Float = Num(v: real) | NaN | Inf(negative: bool)

  /** The `1e-3` tolerance of the HSL branch tests. */
  const Eps: real := 1.0 / 1000.0

  /** Rust's `u8` and `u16`. */
  type U8 = x: int | 0 <= x <= 255
  type U16 = x: int | 0 <= x <= 65535

  function Min(a: real, b: real): real { if a <= b then a else b }

  function Max(a: real, b: real): real { if a >= b then a else b }

  /** `min_partial!(a, b, c)` on finite values: the least of the three. */
  function Min3(a: real, b: real, c: real): (r: real)
    ensures r <= a && r <= b && r <= c
    ensures r == a || r == b || r == c
  {
    Min(a, Min(b, c))
  }

  /** `max_partial!(a, b, c)` on finite values: the greatest of the three. */
  function Max3(a: real, b: real, c: real): (r: real)
    ensures r >= a && r >= b && r >= c
    ensures r == a || r == b || r == c
  {
    Max(a, Max(b, c))
  }

  /** `f32::abs` on a finite value. */
  function Abs(x: real): (r: real)
    ensures 0.0 <= r && (r == x || r == -x)
  {
    if x < 0.0 then -x else x
  }

  /**
   * IEEE division `a / b` of two finite values, where a zero divisor is +0.0
   * (at every call site it is a difference `1.0 - k`): 0/0 is NaN, any other
   * value over zero is an infinity carrying the numerator's sign.
   */
  function Quot(a: real, b: real): (r: Float)
    ensures r.Num? <==> b != 0.0
    ensures r.Num? ==> r.v * b == a
    ensures r.NaN? <==> a == 0.0 && b == 0.0
    ensures r.Inf? ==> (r.negative <==> a < 0.0)
  {
    if b != 0.0 then Num(a / b)
    else if a == 0.0 then NaN
    else Inf(a < 0.0)
  }

  /** IEEE `1.0 - x`. */
  function OneMinus(x: Float): (r: Float)
    ensures r.Num? <==> x.Num?
    ensures r.Num? ==> r.v + x.v == 1.0
    ensures r.NaN? <==> x.NaN?
    ensures r.Inf? ==> x.Inf? && r.negative != x.negative
  {
    match x
    case Num(v) => Num(1.0 - v)
    case NaN => NaN
    case Inf(negative) => Inf(!negative)
  }

  /**
   * IEEE `x * f` for a finite factor `f`: infinity times zero is NaN, and
   * infinity times a non-zero factor is an infinity whose sign is negative
   * exactly when the signs of `x` and `f` differ.
   */
  function Scale(x: Float, f: real): (r: Float)
    ensures r.Num? <==> x.Num?
    ensures r.Num? ==> r.v == x.v * f
    ensures r.NaN? <==> x.NaN? || (x.Inf? && f == 0.0)
    ensures r.Inf? ==> x.Inf? && (r.negative <==> (x.negative != (f < 0.0)))
  {
    match x
    case Num(v) => Num(v * f)
    case NaN => NaN
    case Inf(negative) => if f == 0.0 then NaN else Inf(negative != (f < 0.0))
  }

  /**
   * `f32::round`: the nearest integer, halfway cases rounded away from zero.
   * The two interval postconditions determine the result uniquely.
   */
  function Round(x: real): (r: int)
    ensures 0.0 <= x ==> x - 0.5 < r as real <= x + 0.5
    ensures x < 0.0 ==> x - 0.5 <= r as real < x + 0.5
  {
    if 0.0 <= x then (x + 0.5).Floor else -((-x + 0.5).Floor)
  }

  /** `f32::round` lifted to non-finite values, which it leaves unchanged. */
  function RoundF(x: Float): (r: Float)
    ensures r.Num? <==> x.Num?
    ensures r.Num? ==> r.v == r.v.Floor as real
    ensures r.Num? && 0.0 <= x.v ==> x.v - 0.5 < r.v <= x.v + 0.5
    ensures r.Num? && x.v < 0.0 ==> x.v - 0.5 <= r.v < x.v + 0.5
    ensures !x.Num? ==> r == x
  {
    match x
    case Num(v) => Num(Round(v) as real)
    case _ => x
  }

  /** Truncation toward zero of a finite value. */
  function Trunc(x: real): (r: int)
    ensures 0.0 <= x ==> r as real <= x < r as real + 1.0
    ensures x < 0.0 ==> r as real - 1.0 < x <= r as real
  {
    if 0.0 <= x then x.Floor else -((-x).Floor)
  }

  /**
   * Rust's `as` cast of a finite float to an unsigned integer type whose
   * largest value is `top`: truncate toward zero, then saturate.
   */
  function Saturate(x: real, top: nat): (r: int)
    ensures 0 <= r <= top
    ensures 0.0 <= x < top as real + 1.0 ==> r as real <= x < r as real + 1.0
    ensures x < 1.0 ==> r == 0
    ensures top as real <= x ==> r == top
  {
    var t := Trunc(x);
    if t < 0 then 0 else if t > top then top else t
  }

  /** `x as u8` for a finite `x`. */
  function TruncU8(x: real): (r: U8)
    ensures 0.0 <= x < 256.0 ==> r as real <= x < r as real + 1.0
    ensures x < 1.0 ==> r == 0
    ensures 255.0 <= x ==> r == 255
  {
    Saturate(x, 255)
  }

  /** `x as u16` for a finite `x`. */
  function TruncU16(x: real): (r: U16)
    ensures 0.0 <= x < 65536.0 ==> r as real <= x < r as real + 1.0
    ensures x < 1.0 ==> r == 0
    ensures 65535.0 <= x ==> r == 65535
  {
    Saturate(x, 65535)
  }

  /** `x as u8` for any `f32`: NaN and negative infinity give 0, positive infinity 255. */
  function CastU8(x: Float): (r: U8)
    ensures x.NaN? ==> r == 0
    ensures x.Inf? ==> r == (if x.negative then 0 else 255)
    ensures x.Num? && 0.0 <= x.v < 256.0 ==> r as real <= x.v < r as real + 1.0
    ensures x.Num? && x.v < 1.0 ==> r == 0
    ensures x.Num? && 255.0 <= x.v ==> r == 255
  {
    match x
    case Num(v) => TruncU8(v)
    case NaN => 0
    case Inf(negative) => if negative then 0 else 255
  }

  /** A quotient of a non-negative value by a larger positive one lies in [0, 1]. */
  lemma DivUnit(n: real, d: real)
    requires 0.0 <= n <= d && 0.0 < d
    ensures 0.0 <= n / d <= 1.0
  {
    var q := n / d;
    assert q * d == n;
    assert (1.0 - q) * d == d - n;
  }

  lemma ProductSign(a: real, b: real)
    ensures 0.0 <= a && 0.0 <= b ==> 0.0 <= a * b
  {
  }

  /** Multiplying a non-negative value by a factor in [0, 1] cannot increase it. */
  lemma ScaledDown(a: real, f: real)
    requires 0.0 <= a && 0.0 <= f <= 1.0
    ensures 0.0 <= a * f <= a
  {
    ProductSign(a, f);
    ProductSign(a, 1.0 - f);
  }

  /** Rounding an integral value gives that integer back. */
  lemma RoundIntegral(n: int)
    ensures Round(n as real) == n
  {
  }

  /** Casting an integral value in range gives that integer back. */
  lemma TruncU8Integral(n: U8)
    ensures TruncU8(n as real) == n
  {
  }
}
