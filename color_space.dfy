/**
  Per-pixel colour arithmetic of the region recolourer: conversion between
  RGB (channels normalised to [0, 1]) and HSV (hue in degrees, saturation
  and value in [0, 1]), clamping, and the HSV similarity test. The numpy
  code works on whole arrays of float32; here every formula is stated for
  one pixel over exact reals.
*/
module ColorSpace {

  /** An 8-bit colour channel. */
  type Byte = c: int | 0 <= c < 256

  /** A colour whose channels are normalised to [0, 1]. */
  datatype Rgb = Rgb(r: real, g: real, b: real)

  /** Hue in degrees, saturation and value. */
  datatype Hsv = Hsv(h: real, s: real, v: real)

  /** Per-component tolerances of the similarity test. */
  datatype Tolerance = Tolerance(h: real, s: real, v: real)

  predicate InUnit(x: real) { 0.0 <= x <= 1.0 }

  predicate IsUnitRgb(c: Rgb) { InUnit(c.r) && InUnit(c.g) && InUnit(c.b) }

  /** The ranges every converted colour falls in. */
  predicate IsValidHsv(c: Hsv) { 0.0 <= c.h < 360.0 && InUnit(c.s) && InUnit(c.v) }

  function Abs(x: real): real { if x < 0.0 then -x else x }

  function Max(a: real, b: real): real { if a >= b then a else b }

  function Min(a: real, b: real): real { if a <= b then a else b }

  /** `np.clip(x, lo, hi)`. */
  function Clip(x: real, lo: real, hi: real): (r: real)
    requires lo <= hi
    ensures lo <= r <= hi
    ensures lo <= x <= hi ==> r == x
  {
    if x < lo then lo else if x > hi then hi else x
  }

  /** The fractional part of a real number, in [0, 1). */
  function Frac(q: real): (f: real)
    ensures 0.0 <= f < 1.0
  {
    q - q.Floor as real
  }

  /** Python's `%` on floats, `a - m * floor(a / m)`: the remainder takes
      the sign of the divisor. */
  function FloorMod(a: real, m: real): (r: real)
    requires m > 0.0
    ensures 0.0 <= r < m
  {
    var f := Frac(a / m);
    assert 0.0 <= f < 1.0;
    FractionScaled(f, m);
    assert f * m < m;
    f * m
  }

  lemma FractionScaled(f: real, m: real)
    requires 0.0 <= f < 1.0 && m > 0.0
    ensures 0.0 <= f * m < m
  {
    assert (1.0 - f) * m > 0.0;
  }

  /** For the moduli the colour code uses, when `a` lies in the k-th period
      `a % m` is `a - k * m`. */
  lemma FloorModInPeriod(a: real, m: real, k: int)
    requires m == 2.0 || m == 6.0 || m == 360.0
    requires (k as real) * m <= a < (k as real + 1.0) * m
    ensures FloorMod(a, m) == a - (k as real) * m
  {
    assert (a / m).Floor == k;
  }

  /** The largest and smallest channel of a colour. */
  function MaxChannel(c: Rgb): real { Max(Max(c.r, c.g), c.b) }

  function MinChannel(c: Rgb): real { Min(Min(c.r, c.g), c.b) }

  /** The hue formula of `rgb_to_hsv_vectorized` for a colour whose channels
      are not all equal. The three formulas are written into the output under
      the masks "max is r", "max is g" and "max is b" in that order, so on a
      tie the later mask wins: blue over green over red. */
  function Hue(c: Rgb): (h: real)
    requires IsUnitRgb(c) && MaxChannel(c) != MinChannel(c)
    ensures 0.0 <= h < 360.0
  {
    var mx := MaxChannel(c);
    var delta := mx - MinChannel(c);
    Ratio(c.r - c.g, delta);
    Ratio(c.b - c.r, delta);
    if mx == c.b then 60.0 * ((c.r - c.g) / delta + 4.0)
    else if mx == c.g then 60.0 * ((c.b - c.r) / delta + 2.0)
    else 60.0 * FloorMod((c.g - c.b) / delta, 6.0)
  }

  /** `rgb_to_hsv_vectorized` for one pixel: hue and saturation are zero for
      a grey, saturation is otherwise the spread over the largest channel,
      and value is the largest channel. */
  function RgbToHsv(c: Rgb): (hsv: Hsv)
    requires IsUnitRgb(c)
    ensures IsValidHsv(hsv)
    ensures hsv.v == MaxChannel(c)
    ensures MaxChannel(c) == MinChannel(c) ==> hsv.h == 0.0 && hsv.s == 0.0
    ensures MaxChannel(c) != MinChannel(c) ==>
      hsv.s * MaxChannel(c) == MaxChannel(c) - MinChannel(c)
  {
    var mx := MaxChannel(c);
    var delta := mx - MinChannel(c);
    if delta == 0.0 then
      Hsv(0.0, 0.0, mx)
    else
      Ratio(delta, mx);
      Hsv(Hue(c), delta / mx, mx)
  }

  /** What division by a positive number preserves. */
  lemma Ratio(a: real, d: real)
    requires d > 0.0
    ensures (a / d) * d == a
    ensures a / d < 0.0 <==> a < 0.0
    ensures a / d < 1.0 <==> a < d
    ensures a / d == 1.0 <==> a == d
    ensures -d <= a ==> -1.0 <= a / d
    ensures a <= d ==> a / d <= 1.0
  {
    var t := a / d;
    assert t * d == a;
    if t < 0.0 { assert t * d < 0.0; }
    if a < 0.0 { assert t < 0.0; }
  }

  /** The base triple of `hsv_to_rgb_vectorized`, chosen by the 60-degree
      sector that the hue falls in; a hue outside [0, 360) matches no mask
      and keeps the zero triple. */
  function SectorBase(h: real, c: real, x: real): Rgb
  {
    if 0.0 <= h < 60.0 then Rgb(c, x, 0.0)
    else if 60.0 <= h < 120.0 then Rgb(x, c, 0.0)
    else if 120.0 <= h < 180.0 then Rgb(0.0, c, x)
    else if 180.0 <= h < 240.0 then Rgb(0.0, x, c)
    else if 240.0 <= h < 300.0 then Rgb(x, 0.0, c)
    else if 300.0 <= h < 360.0 then Rgb(c, 0.0, x)
    else Rgb(0.0, 0.0, 0.0)
  }

  /** The sector arithmetic of `hsv_to_rgb_vectorized` before the clip, for
      hue `h`, chroma `c = v * s` and offset `m = v - c`. */
  function Unclipped(h: real, c: real, m: real): Rgb
  {
    var x := c * (1.0 - Abs(FloorMod(h / 60.0, 2.0) - 1.0));
    var base := SectorBase(h, c, x);
    Rgb(base.r + m, base.g + m, base.b + m)
  }

  /** Inside [0, 360) every sector puts the chroma, the intermediate value
      and zero on the three channels, each once; outside it the triple is zero. */
  lemma SectorBaseChannels(h: real, c: real, x: real)
    ensures 0.0 <= h < 360.0 ==>
      var base := SectorBase(h, c, x); multiset{base.r, base.g, base.b} == multiset{c, x, 0.0}
    ensures !(0.0 <= h < 360.0) ==> SectorBase(h, c, x) == Rgb(0.0, 0.0, 0.0)
  {
  }

  /** For a hue in [0, 360) and a non-negative chroma the intermediate value
      lies between 0 and the chroma, so the unclipped colour has `m` as its
      smallest channel and `c + m` as its largest. */
  lemma UnclippedRange(h: real, c: real, m: real)
    requires 0.0 <= h < 360.0 && 0.0 <= c
    ensures MinChannel(Unclipped(h, c, m)) == m && MaxChannel(Unclipped(h, c, m)) == c + m
  {
    var t := FloorMod(h / 60.0, 2.0);
    var f := 1.0 - Abs(t - 1.0);
    assert 0.0 <= f <= 1.0;
    var x := c * f;
    assert 0.0 <= x <= c by {
      assert c * f <= c * 1.0;
    }
  }

  /** The chroma `v * s` of an HSV colour. */
  function Chroma(hsv: Hsv): real { hsv.v * hsv.s }

  /** `np.clip(rgb, 0, 1)` channel by channel. */
  function ClipRgb(raw: Rgb): (rgb: Rgb)
    ensures IsUnitRgb(rgb)
    ensures IsUnitRgb(raw) ==> rgb == raw
  {
    Rgb(Clip(raw.r, 0.0, 1.0), Clip(raw.g, 0.0, 1.0), Clip(raw.b, 0.0, 1.0))
  }

  /** `hsv_to_rgb_vectorized` for one pixel, including the final clip to [0, 1]. */
  function HsvToRgb(hsv: Hsv): (rgb: Rgb)
    ensures IsUnitRgb(rgb)
  {
    ClipRgb(Unclipped(hsv.h, Chroma(hsv), hsv.v - Chroma(hsv)))
  }

  /** Converting a normalised colour to HSV and back gives the colour again. */
  lemma HsvRoundTrip(c: Rgb)
    requires IsUnitRgb(c)
    ensures HsvToRgb(RgbToHsv(c)) == c
  {
    var mx := MaxChannel(c);
    var mn := MinChannel(c);
    if mx == mn {
      RoundTripGrey(c);
    } else {
      var d := mx - mn;
      if mx == c.b {
        RoundTripBlue(c, d);
      } else if mx == c.g {
        RoundTripGreen(c, d);
      } else {
        RoundTripRed(c, d);
      }
      UnclippedIsHsvToRgb(c, d);
    }
  }

  lemma RoundTripGrey(c: Rgb)
    requires IsUnitRgb(c) && MaxChannel(c) == MinChannel(c)
    ensures HsvToRgb(RgbToHsv(c)) == c
  {
    var mx := MaxChannel(c);
    assert RgbToHsv(c) == Hsv(0.0, 0.0, mx);
    assert c == Rgb(mx, mx, mx);
    GreyFromHsv(mx);
  }

  lemma GreyFromHsv(v: real)
    requires InUnit(v)
    ensures HsvToRgb(Hsv(0.0, 0.0, v)) == Rgb(v, v, v)
  {
    FloorModInPeriod(0.0, 2.0, 0);
    assert v * 0.0 == 0.0;
    assert Unclipped(0.0, 0.0, v) == Rgb(v, v, v);
  }

  /** For a colour that is not grey, `HsvToRgb` of its HSV form is the
      sector arithmetic with chroma = spread and offset = smallest channel. */
  lemma UnclippedIsHsvToRgb(c: Rgb, d: real)
    requires IsUnitRgb(c) && d == MaxChannel(c) - MinChannel(c) && d > 0.0
    requires Unclipped(Hue(c), d, MinChannel(c)) == c
    ensures HsvToRgb(RgbToHsv(c)) == c
  {
    NonGreyHsv(c, d);
    ChromaIsSpread(RgbToHsv(c), d, c);
  }

  /** The HSV form of a colour that is not grey has chroma = spread and
      value - chroma = smallest channel. */
  lemma NonGreyHsv(c: Rgb, d: real)
    requires IsUnitRgb(c) && d == MaxChannel(c) - MinChannel(c) && d > 0.0
    ensures RgbToHsv(c).h == Hue(c)
    ensures Chroma(RgbToHsv(c)) == d
    ensures RgbToHsv(c).v - d == MinChannel(c)
  {
    var mx := MaxChannel(c);
    Ratio(d, mx);
    assert RgbToHsv(c) == Hsv(Hue(c), d / mx, mx);
  }

  lemma ChromaIsSpread(hsv: Hsv, d: real, c: Rgb)
    requires Chroma(hsv) == d && IsUnitRgb(c)
    requires Unclipped(hsv.h, d, hsv.v - d) == c
    ensures HsvToRgb(hsv) == c
  {
  }

  lemma RoundTripBlue(c: Rgb, d: real)
    requires IsUnitRgb(c) && d == MaxChannel(c) - MinChannel(c) && d > 0.0 && MaxChannel(c) == c.b
    ensures Unclipped(Hue(c), d, MinChannel(c)) == c
  {
    var m := MinChannel(c);
    var t := (c.r - c.g) / d;
    Ratio(c.r - c.g, d);
    assert Hue(c) == 60.0 * (t + 4.0);
    if t < 0.0 {
      SectorBlueLow(t, d, m);
    } else if t < 1.0 {
      SectorBlueHigh(t, d, m);
    } else {
      SectorBlueTop(t, d, m);
    }
  }

  lemma RoundTripGreen(c: Rgb, d: real)
    requires IsUnitRgb(c) && d == MaxChannel(c) - MinChannel(c) && d > 0.0
    requires MaxChannel(c) != c.b && MaxChannel(c) == c.g
    ensures Unclipped(Hue(c), d, MinChannel(c)) == c
  {
    var m := MinChannel(c);
    var t := (c.b - c.r) / d;
    Ratio(c.b - c.r, d);
    assert Hue(c) == 60.0 * (t + 2.0);
    if t < 0.0 {
      SectorGreenLow(t, d, m);
    } else {
      SectorGreenHigh(t, d, m);
    }
  }

  lemma RoundTripRed(c: Rgb, d: real)
    requires IsUnitRgb(c) && d == MaxChannel(c) - MinChannel(c) && d > 0.0
    requires MaxChannel(c) != c.b && MaxChannel(c) != c.g
    ensures Unclipped(Hue(c), d, MinChannel(c)) == c
  {
    var m := MinChannel(c);
    var t := (c.g - c.b) / d;
    Ratio(c.g - c.b, d);
    if t < 0.0 {
      FloorModInPeriod(t, 6.0, -1);
      assert Hue(c) == 60.0 * (t + 6.0);
      SectorRedLow(t, d, m);
    } else {
      FloorModInPeriod(t, 6.0, 0);
      assert Hue(c) == 60.0 * t;
      SectorRedHigh(t, d, m);
    }
  }

  lemma SectorRedHigh(t: real, d: real, m: real)
    requires 0.0 <= t < 1.0
    ensures Unclipped(60.0 * t, d, m) == Rgb(d + m, t * d + m, m)
  {
    FloorModInPeriod(t, 2.0, 0);
    assert d * (1.0 - Abs(t - 1.0)) == t * d;
  }

  lemma SectorRedLow(t: real, d: real, m: real)
    requires -1.0 < t < 0.0
    ensures Unclipped(60.0 * (t + 6.0), d, m) == Rgb(d + m, m, m - t * d)
  {
    FloorModInPeriod(t + 6.0, 2.0, 2);
    assert d * (1.0 - Abs(t + 6.0 - 4.0 - 1.0)) == -(t * d);
  }

  lemma SectorGreenLow(t: real, d: real, m: real)
    requires -1.0 <= t < 0.0
    ensures Unclipped(60.0 * (t + 2.0), d, m) == Rgb(m - t * d, d + m, m)
  {
    FloorModInPeriod(t + 2.0, 2.0, 0);
    assert d * (1.0 - Abs(t + 2.0 - 1.0)) == -(t * d);
  }

  lemma SectorGreenHigh(t: real, d: real, m: real)
    requires 0.0 <= t < 1.0
    ensures Unclipped(60.0 * (t + 2.0), d, m) == Rgb(m, d + m, t * d + m)
  {
    FloorModInPeriod(t + 2.0, 2.0, 1);
    assert d * (1.0 - Abs(t + 2.0 - 2.0 - 1.0)) == t * d;
  }

  lemma SectorBlueLow(t: real, d: real, m: real)
    requires -1.0 <= t < 0.0
    ensures Unclipped(60.0 * (t + 4.0), d, m) == Rgb(m, m - t * d, d + m)
  {
    FloorModInPeriod(t + 4.0, 2.0, 1);
    assert d * (1.0 - Abs(t + 4.0 - 2.0 - 1.0)) == -(t * d);
  }

  lemma SectorBlueHigh(t: real, d: real, m: real)
    requires 0.0 <= t < 1.0
    ensures Unclipped(60.0 * (t + 4.0), d, m) == Rgb(t * d + m, m, d + m)
  {
    FloorModInPeriod(t + 4.0, 2.0, 2);
    assert d * (1.0 - Abs(t + 4.0 - 4.0 - 1.0)) == t * d;
  }

  lemma SectorBlueTop(t: real, d: real, m: real)
    requires t == 1.0
    ensures Unclipped(60.0 * (t + 4.0), d, m) == Rgb(d + m, m, d + m)
  {
    FloorModInPeriod(5.0, 2.0, 2);
  }

  /** `min(|h1 - h2|, 360 - |h1 - h2|)`: the distance between two hues
      measured the short way round the colour wheel. */
  function HueDistance(h1: real, h2: real): (d: real)
    ensures d <= Abs(h1 - h2)
    ensures 0.0 <= h1 < 360.0 && 0.0 <= h2 < 360.0 ==> 0.0 <= d <= 180.0
  {
    var diff := Abs(h1 - h2);
    Min(diff, 360.0 - diff)
  }

  /** `hsv_similarity`: all three components within tolerance, with every bound inclusive. */
  predicate HsvSimilar(a: Hsv, b: Hsv, tol: Tolerance)
  {
    && HueDistance(a.h, b.h) <= tol.h
    && Abs(a.s - b.s) <= tol.s
    && Abs(a.v - b.v) <= tol.v
  }

  /** The similarity test is symmetric in its two colours. */
  lemma HsvSimilarSymmetric(a: Hsv, b: Hsv, tol: Tolerance)
    ensures HsvSimilar(a, b, tol) <==> HsvSimilar(b, a, tol)
  {
    assert Abs(a.h - b.h) == Abs(b.h - a.h);
  }

  /** For hues in [0, 360) the cyclic distance never exceeds 180 degrees,
      so a hue tolerance of 180 or more accepts every hue. */
  lemma HueDistanceAtMost180(h1: real, h2: real, tol: real)
    requires 0.0 <= h1 < 360.0 && 0.0 <= h2 < 360.0
    ensures 0.0 <= HueDistance(h1, h2) <= 180.0
    ensures tol >= 180.0 ==> HueDistance(h1, h2) <= tol
  {
  }

  /** The similarity test is exactly the three inclusive per-component bounds. */
  lemma HsvSimilarIff(a: Hsv, b: Hsv, tol: Tolerance)
    ensures HsvSimilar(a, b, tol) <==>
      (var d := if a.h >= b.h then a.h - b.h else b.h - a.h;
       (d <= tol.h || 360.0 - d <= tol.h)
       && (if a.s >= b.s then a.s - b.s else b.s - a.s) <= tol.s
       && (if a.v >= b.v then a.v - b.v else b.v - a.v) <= tol.v)
  {
  }

  /** Hues 5 and 355 are 10 degrees apart across 0: accepted with tolerance 15, rejected with 5. */
  lemma CyclicToleranceExample()
    ensures HsvSimilar(Hsv(5.0, 0.5, 0.5), Hsv(355.0, 0.5, 0.5), Tolerance(15.0, 0.0, 0.0))
    ensures !HsvSimilar(Hsv(5.0, 0.5, 0.5), Hsv(355.0, 0.5, 0.5), Tolerance(5.0, 0.0, 0.0))
  {
  }
}
