/**
  The image data the recolourer works on: a surface's RGB channels and
  optional alpha channel as two grids in numpy index order (`grid[y][x]`
  with `y` the first index), the seed selection by an RGB range, the
  row-major list of seed cells that `np.where` yields, the average HSV of
  the seeds, and the conversions between 8-bit channels and [0, 1].
*/
module Imaging {
  import opened Options
  import opened ColorSpace

  /** The RGB part of one pixel of `pixels3d`. */
  datatype Pixel = Pixel(r: Byte, g: Byte, b: Byte)

  /** A surface: `height` rows of `width` pixels, and the alpha grid when
      the surface has four bytes per pixel. */
  datatype Image = Image(height: nat, width: nat, rgb: seq<seq<Pixel>>, alpha: Option<seq<seq<Byte>>>)

  /** A grid position, first index `y`, second index `x`. */
  datatype Cell = Cell(y: int, x: int)

  /** `((r_min, g_min, b_min), (r_max, g_max, b_max))`, bounds inclusive. */
  datatype Triple = Triple(r: int, g: int, b: int)
  datatype ColorRange = ColorRange(low: Triple, high: Triple)

  predicate IsGrid<T>(grid: seq<seq<T>>, h: nat, w: nat)
  {
    |grid| == h && forall y :: 0 <= y < h ==> |grid[y]| == w
  }

  predicate WellFormed(img: Image)
  {
    && IsGrid(img.rgb, img.height, img.width)
    && (img.alpha.Some? ==> IsGrid(img.alpha.value, img.height, img.width))
  }

  predicate InBounds(img: Image, c: Cell)
  {
    0 <= c.y < img.height && 0 <= c.x < img.width
  }

  function PixelAt(img: Image, c: Cell): Pixel
    requires WellFormed(img) && InBounds(img, c)
  {
    img.rgb[c.y][c.x]
  }

  /** A pixel whose alpha is zero; a surface without alpha has none. */
  predicate Transparent(img: Image, c: Cell)
    requires WellFormed(img) && InBounds(img, c)
  {
    img.alpha.Some? && img.alpha.value[c.y][c.x] == 0
  }

  /** A channel value as the float `value / 255`. */
  function ToUnit(p: Pixel): (c: Rgb)
    ensures IsUnitRgb(c)
  {
    Rgb(p.r as real / 255.0, p.g as real / 255.0, p.b as real / 255.0)
  }

  /** `(x * 255).astype(np.uint8)` for x in [0, 1]: truncation toward zero,
      which for a non-negative value is the floor. */
  function ToByte(x: real): (b: Byte)
    requires InUnit(x)
  {
    ScaledChannel(x);
    (x * 255.0).Floor
  }

  lemma ScaledChannel(x: real)
    requires InUnit(x)
    ensures 0.0 <= x * 255.0 <= 255.0
  {
    assert x * 255.0 <= 1.0 * 255.0;
  }

  /** Scaling an 8-bit channel to [0, 1] and back recovers it exactly. */
  lemma ByteRoundTrip(b: Byte)
    ensures ToByte(b as real / 255.0) == b
  {
    assert (b as real / 255.0) * 255.0 == b as real;
  }

  function ToPixel(c: Rgb): Pixel
    requires IsUnitRgb(c)
  {
    Pixel(ToByte(c.r), ToByte(c.g), ToByte(c.b))
  }

  /** Converting a pixel to floats and back gives the pixel again. */
  lemma PixelRoundTrip(p: Pixel)
    ensures ToPixel(ToUnit(p)) == p
  {
    ByteRoundTrip(p.r);
    ByteRoundTrip(p.g);
    ByteRoundTrip(p.b);
  }

  /** The HSV form of a pixel, as `rgb_to_hsv_vectorized` computes it. */
  function PixelHsv(p: Pixel): (hsv: Hsv)
    ensures IsValidHsv(hsv)
  {
    RgbToHsv(ToUnit(p))
  }

  predicate InColorRange(p: Pixel, range: ColorRange)
  {
    && range.low.r <= p.r <= range.high.r
    && range.low.g <= p.g <= range.high.g
    && range.low.b <= p.b <= range.high.b
  }

  /** A seed of the region: a pixel inside the colour range that is not
      fully transparent. */
  predicate IsStartPixel(img: Image, range: ColorRange, c: Cell)
    requires WellFormed(img) && InBounds(img, c)
  {
    InColorRange(PixelAt(img, c), range) && !Transparent(img, c)
  }

  /** `find_pixels_in_color_range`: the mask of seeds. A surface without
      alpha is treated as fully opaque. */
  function StartMask(img: Image, range: ColorRange): (mask: seq<seq<bool>>)
    requires WellFormed(img)
    ensures IsGrid(mask, img.height, img.width)
    ensures forall y, x :: 0 <= y < img.height && 0 <= x < img.width ==>
      (mask[y][x] <==> InColorRange(img.rgb[y][x], range) && (img.alpha.None? || img.alpha.value[y][x] > 0))
  {
    seq(img.height, y requires 0 <= y < img.height =>
      seq(img.width, x requires 0 <= x < img.width => IsStartPixel(img, range, Cell(y, x))))
  }

  /** The true cells of one mask row, left to right. */
  function RowCells(row: seq<bool>, y: int): (cs: seq<Cell>)
    ensures forall c :: c in cs <==> c.y == y && 0 <= c.x < |row| && row[c.x]
    ensures forall i, j :: 0 <= i < j < |cs| ==> cs[i].x < cs[j].x
  {
    if |row| == 0 then []
    else
      var rest := RowCells(row[..|row| - 1], y);
      if row[|row| - 1] then rest + [Cell(y, |row| - 1)] else rest
  }

  /** The true cells of a mask in row-major order, as `np.where` lists them. */
  function MaskCells(mask: seq<seq<bool>>): (cs: seq<Cell>)
    ensures forall c :: c in cs <==> 0 <= c.y < |mask| && 0 <= c.x < |mask[c.y]| && mask[c.y][c.x]
    ensures forall i, j :: 0 <= i < j < |cs| ==> cs[i] != cs[j]
  {
    if |mask| == 0 then []
    else
      var rest := MaskCells(mask[..|mask| - 1]);
      var row := RowCells(mask[|mask| - 1], |mask| - 1);
      assert forall i :: 0 <= i < |rest| ==> rest[i].y < |mask| - 1 by {
        forall i | 0 <= i < |rest| ensures rest[i].y < |mask| - 1 {
          assert rest[i] in rest;
        }
      }
      assert forall j :: 0 <= j < |row| ==> row[j].y == |mask| - 1 by {
        forall j | 0 <= j < |row| ensures row[j].y == |mask| - 1 {
          assert row[j] in row;
        }
      }
      rest + row
  }

  /** `np.any(mask)`: the mask has a true cell exactly when its cell list is non-empty. */
  lemma AnyIffCells(mask: seq<seq<bool>>)
    ensures (exists y, x :: 0 <= y < |mask| && 0 <= x < |mask[y]| && mask[y][x]) <==> |MaskCells(mask)| > 0
  {
    var cs := MaskCells(mask);
    if |cs| > 0 {
      assert cs[0] in cs;
    }
    if exists y, x :: 0 <= y < |mask| && 0 <= x < |mask[y]| && mask[y][x] {
      var y, x :| 0 <= y < |mask| && 0 <= x < |mask[y]| && mask[y][x];
      assert Cell(y, x) in cs;
    }
  }

  function Sum(xs: seq<real>): real
  {
    if |xs| == 0 then 0.0 else Sum(xs[..|xs| - 1]) + xs[|xs| - 1]
  }

  /** `np.mean`. */
  function Mean(xs: seq<real>): real
    requires |xs| > 0
  {
    Sum(xs) / |xs| as real
  }

  /** A sum of values in [lo, hi] lies between `n * lo` and `n * hi`. */
  lemma {:induction false} SumBounds(xs: seq<real>, lo: real, hi: real)
    requires forall i :: 0 <= i < |xs| ==> lo <= xs[i] <= hi
    ensures |xs| as real * lo <= Sum(xs) <= |xs| as real * hi
  {
    if |xs| > 0 {
      var init := xs[..|xs| - 1];
      SumBounds(init, lo, hi);
      var n := |init| as real;
      assert Sum(xs) == Sum(init) + xs[|xs| - 1];
      assert (n + 1.0) * lo == n * lo + lo;
      assert (n + 1.0) * hi == n * hi + hi;
    }
  }

  /** A non-empty sum of values below `hi` is below `n * hi`. */
  lemma {:induction false} SumBelow(xs: seq<real>, hi: real)
    requires |xs| > 0
    requires forall i :: 0 <= i < |xs| ==> xs[i] < hi
    ensures Sum(xs) < |xs| as real * hi
  {
    var init := xs[..|xs| - 1];
    assert Sum(xs) == Sum(init) + xs[|xs| - 1];
    if |init| == 0 {
      assert Sum(init) == 0.0;
    } else {
      SumBelow(init, hi);
      var n := |init| as real;
      assert (n + 1.0) * hi == n * hi + hi;
    }
  }

  /** The mean of values in [lo, hi] lies in [lo, hi], and below `hi` when every value does. */
  lemma MeanBounds(xs: seq<real>, lo: real, hi: real)
    requires |xs| > 0
    requires forall i :: 0 <= i < |xs| ==> lo <= xs[i] <= hi
    ensures lo <= Mean(xs) <= hi
    ensures (forall i :: 0 <= i < |xs| ==> xs[i] < hi) ==> Mean(xs) < hi
  {
    SumBounds(xs, lo, hi);
    var n := |xs| as real;
    if forall i :: 0 <= i < |xs| ==> xs[i] < hi {
      SumBelow(xs, hi);
    }
    MeanScaled(Sum(xs), n, lo, hi);
  }

  lemma MeanScaled(s: real, n: real, lo: real, hi: real)
    requires n > 0.0 && n * lo <= s <= n * hi
    ensures lo <= s / n <= hi
    ensures s < n * hi ==> s / n < hi
  {
    Ratio(s, n);
    var m := s / n;
    assert m * n == s;
    assert (m - lo) * n == s - n * lo;
    assert (hi - m) * n == n * hi - s;
  }

  /** The HSV forms of the pixels at the given cells. */
  function CellHsvs(img: Image, cells: seq<Cell>): (hs: seq<Hsv>)
    requires WellFormed(img)
    requires forall i :: 0 <= i < |cells| ==> InBounds(img, cells[i])
    ensures |hs| == |cells|
    ensures forall i :: 0 <= i < |cells| ==> hs[i] == PixelHsv(PixelAt(img, cells[i]))
  {
    seq(|cells|, i requires 0 <= i < |cells| => PixelHsv(PixelAt(img, cells[i])))
  }

  /** The component-wise arithmetic mean of a non-empty list of HSV colours. */
  function MeanHsv(hs: seq<Hsv>): (avg: Hsv)
    requires |hs| > 0
  {
    Hsv(Mean(seq(|hs|, i requires 0 <= i < |hs| => hs[i].h)),
        Mean(seq(|hs|, i requires 0 <= i < |hs| => hs[i].s)),
        Mean(seq(|hs|, i requires 0 <= i < |hs| => hs[i].v)))
  }

  /** The average of valid HSV colours is itself a valid HSV colour. */
  lemma MeanHsvValid(hs: seq<Hsv>)
    requires |hs| > 0
    requires forall i :: 0 <= i < |hs| ==> IsValidHsv(hs[i])
    ensures IsValidHsv(MeanHsv(hs))
  {
    MeanBounds(seq(|hs|, i requires 0 <= i < |hs| => hs[i].h), 0.0, 360.0);
    MeanBounds(seq(|hs|, i requires 0 <= i < |hs| => hs[i].s), 0.0, 1.0);
    MeanBounds(seq(|hs|, i requires 0 <= i < |hs| => hs[i].v), 0.0, 1.0);
  }

  /** The hue average is arithmetic, not circular: seeds with hues 350 and
      10 (both near red) average to 180, the opposite side of the wheel. */
  lemma HueMeanIsArithmetic()
    ensures MeanHsv([Hsv(350.0, 1.0, 1.0), Hsv(10.0, 1.0, 1.0)]).h == 180.0
  {
    var hs := seq(2, i requires 0 <= i < 2 => [Hsv(350.0, 1.0, 1.0), Hsv(10.0, 1.0, 1.0)][i].h);
    assert hs == [350.0, 10.0];
    assert Sum(hs) == Sum([350.0]) + 10.0;
  }
}
