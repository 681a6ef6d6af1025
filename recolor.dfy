/**
  `adjust_hue_saturation`: pick the seeds by an RGB box, average their HSV
  form, grow the region of similar pixels around them, and rewrite every
  region pixel with its hue shifted and its saturation and value scaled;
  the alpha channel is copied back unchanged.
*/
module Recolor {
  import opened Options
  import opened ColorSpace
  import opened Imaging
  import opened RegionGrowth

  /** `hue_shift` in degrees, `saturation_scale` and `value_scale`. */
  datatype Adjustment = Adjustment(hueShift: real, saturationScale: real, valueScale: real)

  /** The adjustment the default arguments describe: no change at all. */
  const Identity := Adjustment(0.0, 1.0, 1.0)

  /** The edit of one HSV colour: the hue rotated modulo 360 with Python's
      floored `%`, the saturation and value scaled and clipped to [0, 1]. */
  function AdjustHsv(hsv: Hsv, adj: Adjustment): (out: Hsv)
    ensures IsValidHsv(out)
    ensures 0.0 <= hsv.s * adj.saturationScale <= 1.0 ==> out.s == hsv.s * adj.saturationScale
    ensures 0.0 <= hsv.v * adj.valueScale <= 1.0 ==> out.v == hsv.v * adj.valueScale
  {
    Hsv(FloorMod(hsv.h + adj.hueShift, 360.0),
        Clip(hsv.s * adj.saturationScale, 0.0, 1.0),
        Clip(hsv.v * adj.valueScale, 0.0, 1.0))
  }

  /** Shifting by one more full turn gives the same colour. */
  lemma HueShiftPeriodic(hsv: Hsv, adj: Adjustment)
    ensures AdjustHsv(hsv, Adjustment(adj.hueShift + 360.0, adj.saturationScale, adj.valueScale))
         == AdjustHsv(hsv, adj)
  {
    var a := hsv.h + adj.hueShift;
    FloorModShift(a);
  }

  lemma FloorModShift(a: real)
    ensures FloorMod(a + 360.0, 360.0) == FloorMod(a, 360.0)
  {
    var k := (a / 360.0).Floor;
    assert (k as real) * 360.0 <= a < (k as real + 1.0) * 360.0 by {
      FloorScaled(a, k);
    }
    FloorModInPeriod(a, 360.0, k);
    FloorModInPeriod(a + 360.0, 360.0, k + 1);
  }

  lemma FloorScaled(a: real, k: int)
    requires k == (a / 360.0).Floor
    ensures (k as real) * 360.0 <= a < (k as real + 1.0) * 360.0
  {
    var q := a / 360.0;
    assert q * 360.0 == a;
    assert (k as real) <= q < (k as real) + 1.0;
  }

  /** The identity adjustment leaves a valid HSV colour as it is. */
  lemma AdjustIdentity(hsv: Hsv)
    requires IsValidHsv(hsv)
    ensures AdjustHsv(hsv, Identity) == hsv
  {
    FloorModInPeriod(hsv.h, 360.0, 0);
  }

  /** `(x * 255).astype(np.uint8)` channel by channel. */
  function WriteBack(c: Rgb): (p: Pixel)
    requires IsUnitRgb(c)
  {
    ToPixel(c)
  }

  /** The new colour of one region pixel: to [0, 1], to HSV, adjusted, back
      to RGB, back to bytes. */
  function RecolorPixel(p: Pixel, adj: Adjustment): (q: Pixel)
  {
    WriteBack(HsvToRgb(AdjustHsv(PixelHsv(p), adj)))
  }

  /** With the identity adjustment a region pixel keeps its colour. */
  lemma RecolorIdentity(p: Pixel)
    ensures RecolorPixel(p, Identity) == p
  {
    var hsv := PixelHsv(p);
    AdjustIdentity(hsv);
    HsvRoundTrip(ToUnit(p));
    PixelRoundTrip(p);
  }

  /** An HSV colour with zero saturation is the grey of its value, whatever its hue. */
  lemma ZeroSaturationGrey(h: real, v: real)
    requires InUnit(v)
    ensures HsvToRgb(Hsv(h, 0.0, v)) == Rgb(v, v, v)
  {
    assert Chroma(Hsv(h, 0.0, v)) == 0.0;
  }

  /** A saturation scale of zero turns every region pixel grey. */
  lemma DesaturateIsGrey(p: Pixel, adj: Adjustment)
    requires adj.saturationScale == 0.0
    ensures var q := RecolorPixel(p, adj); q.r == q.g == q.b
  {
    var out := AdjustHsv(PixelHsv(p), adj);
    assert out.s == 0.0;
    ZeroSaturationGrey(out.h, out.v);
  }

  /** Pure red shifted by 120 degrees becomes pure green. */
  lemma RedToGreen()
    ensures RecolorPixel(Pixel(255, 0, 0), Adjustment(120.0, 1.0, 1.0)) == Pixel(0, 255, 0)
  {
    RedPixelHsv();
    RedShifted();
    GreenRgb();
    GreenWriteBack();
  }

  lemma RedPixelHsv()
    ensures PixelHsv(Pixel(255, 0, 0)) == Hsv(0.0, 1.0, 1.0)
  {
    assert ToUnit(Pixel(255, 0, 0)) == Rgb(1.0, 0.0, 0.0);
    RedHsv();
  }

  lemma RedShifted()
    ensures AdjustHsv(Hsv(0.0, 1.0, 1.0), Adjustment(120.0, 1.0, 1.0)) == Hsv(120.0, 1.0, 1.0)
  {
    FloorModInPeriod(120.0, 360.0, 0);
  }

  lemma GreenWriteBack()
    ensures WriteBack(Rgb(0.0, 1.0, 0.0)) == Pixel(0, 255, 0)
  {
    assert (0.0 * 255.0).Floor == 0;
    assert (1.0 * 255.0).Floor == 255;
  }

  lemma RedHsv()
    ensures RgbToHsv(Rgb(1.0, 0.0, 0.0)) == Hsv(0.0, 1.0, 1.0)
  {
    FloorModInPeriod(0.0, 6.0, 0);
  }

  lemma GreenRgb()
    ensures HsvToRgb(Hsv(120.0, 1.0, 1.0)) == Rgb(0.0, 1.0, 0.0)
  {
    assert Chroma(Hsv(120.0, 1.0, 1.0)) == 1.0;
    GreenSector();
  }

  lemma GreenSector()
    ensures Unclipped(120.0, 1.0, 0.0) == Rgb(0.0, 1.0, 0.0)
  {
    assert FloorMod(120.0 / 60.0, 2.0) == 0.0 by {
      assert 120.0 / 60.0 == 2.0;
      FloorModInPeriod(2.0, 2.0, 1);
    }
    var x := 1.0 * (1.0 - Abs(FloorMod(120.0 / 60.0, 2.0) - 1.0));
    assert x == 0.0;
    assert SectorBase(120.0, 1.0, x) == Rgb(0.0, 1.0, 0.0);
  }

  /** The growth the pipeline runs: the seed mask of the colour box, the
      mean HSV of the seeds as target, and the image's HSV grid. */
  function PipelineGrowth(img: Image, range: ColorRange, tol: Tolerance, connectivity: int): (g: Growth)
    requires WellFormed(img) && |MaskCells(StartMask(img, range))| > 0
    ensures ValidGrowth(g) && g.hsv == HsvImage(g.img) && IsValidHsv(g.target)
  {
    var start := StartMask(img, range);
    var seeds := MaskCells(start);
    var hs := CellHsvs(img, seeds);
    MeanHsvValid(hs);
    Growth(img, start, HsvImage(img), MeanHsv(hs), tol, connectivity)
  }

  /** No pixel with alpha zero is ever recoloured: seeds are opaque, and
      growth admits only pixels that are not transparent. */
  lemma TransparentNeverInRegion(img: Image, range: ColorRange, tol: Tolerance, connectivity: int, c: Cell)
    requires WellFormed(img) && |MaskCells(StartMask(img, range))| > 0
    requires InRegion(PipelineGrowth(img, range, tol, connectivity), c)
    ensures InBounds(img, c) && !Transparent(img, c)
  {
    RegionIsJoinable(PipelineGrowth(img, range, tol, connectivity), c);
  }

  /** Every seed is recoloured. */
  lemma SeedsInRegion(img: Image, range: ColorRange, tol: Tolerance, connectivity: int, c: Cell)
    requires WellFormed(img) && |MaskCells(StartMask(img, range))| > 0
    requires InBounds(img, c) && IsStartPixel(img, range, c)
    ensures InRegion(PipelineGrowth(img, range, tol, connectivity), c)
  {
    SeedInRegion(PipelineGrowth(img, range, tol, connectivity), c);
  }

  /** The write-back of `adjust_hue_saturation`: region pixels get their
      recoloured value and the others go through the same float round trip,
      which gives them back unchanged; the alpha grid is carried over. */
  function Recolored(img: Image, mask: seq<seq<bool>>, adj: Adjustment): (out: Image)
    requires WellFormed(img) && IsGrid(mask, img.height, img.width)
    ensures WellFormed(out) && out.height == img.height && out.width == img.width && out.alpha == img.alpha
    ensures forall y, x :: 0 <= y < img.height && 0 <= x < img.width ==>
      out.rgb[y][x] == (if mask[y][x] then RecolorPixel(img.rgb[y][x], adj) else img.rgb[y][x])
  {
    var rgb := seq(img.height, y requires 0 <= y < img.height =>
      seq(img.width, x requires 0 <= x < img.width =>
        if mask[y][x] then RecolorPixel(img.rgb[y][x], adj) else WriteBack(ToUnit(img.rgb[y][x]))));
    assert forall y, x :: 0 <= y < img.height && 0 <= x < img.width ==>
      rgb[y][x] == (if mask[y][x] then RecolorPixel(img.rgb[y][x], adj) else img.rgb[y][x]) by {
      forall y, x | 0 <= y < img.height && 0 <= x < img.width
        ensures rgb[y][x] == (if mask[y][x] then RecolorPixel(img.rgb[y][x], adj) else img.rgb[y][x])
      {
        PixelRoundTrip(img.rgb[y][x]);
      }
    }
    Image(img.height, img.width, rgb, img.alpha)
  }

  /** The whole pipeline. Without seeds the input is returned as it is;
      otherwise exactly the region pixels get their recoloured value, every
      other pixel keeps its value, and the alpha grid is copied back. */
  method AdjustHueSaturation(img: Image, range: ColorRange, adj: Adjustment, tol: Tolerance, connectivity: int)
    returns (out: Image)
    requires WellFormed(img)
    ensures |MaskCells(StartMask(img, range))| == 0 ==> out == img
    ensures WellFormed(out) && out.height == img.height && out.width == img.width && out.alpha == img.alpha
    ensures |MaskCells(StartMask(img, range))| > 0 ==>
      forall y, x :: 0 <= y < img.height && 0 <= x < img.width ==>
        out.rgb[y][x] == (if InRegion(PipelineGrowth(img, range, tol, connectivity), Cell(y, x))
                          then RecolorPixel(img.rgb[y][x], adj) else img.rgb[y][x])
  {
    var start := StartMask(img, range);
    if |MaskCells(start)| == 0 {
      return img;
    }
    var g := PipelineGrowth(img, range, tol, connectivity);
    var region := GrowRegion(img, start, g.target, tol, connectivity);
    out := Recolored(img, MaskOf(region), adj);
  }

  /** The seed selection as written: the alpha copy is made only for a
      surface with alpha, but the seed search reads it in every case, so a
      surface without alpha stops with an unbound-name error (`None` here). */
  function SeedsAsWritten(img: Image, range: ColorRange): (r: Option<seq<seq<bool>>>)
    requires WellFormed(img)
    ensures r.Some? <==> img.alpha.Some?
    ensures r.Some? ==> r.value == StartMask(img, range)
  {
    if img.alpha.Some? then Some(StartMask(img, range)) else None
  }

  /** On a surface without alpha the code as written fails, while the
      corrected seed mask is the colour box test alone. */
  lemma NoAlphaSurface(img: Image, range: ColorRange)
    requires WellFormed(img) && img.alpha.None?
    ensures SeedsAsWritten(img, range) == None
    ensures forall y, x :: 0 <= y < img.height && 0 <= x < img.width ==>
      (StartMask(img, range)[y][x] <==> InColorRange(img.rgb[y][x], range))
  {
  }
}
