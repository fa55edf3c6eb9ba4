/** The region-of-interest pipeline of the scaled-preview app (Atwo.py): the
    image is shown 800 pixels wide, the rectangle drawn on that preview is
    scaled back to the original image, truncated, clamped to the image and
    validated; the crop goes to the detector and the circles it finds are
    moved back into original-image coordinates. */
module RoiMapper {
  import opened Basics
  import opened Grid
  import opened Circles

  /** Width of the preview canvas, in display pixels. */
  const DisplayWidth: nat := 800

  /** The detector settings of this app: unit accumulator resolution,
      centres at least 20 pixels apart, thresholds 50/30, radius range left
      to the detector. */
  const HoughSettings: Params := Params(1.0, 20.0, 50.0, 30.0, 0, 0)

  /** A rectangle in preview coordinates. */
  datatype DisplayRect = DisplayRect(left: real, top: real, width: real, height: real)

  /** A region in original-image coordinates: columns `x1..x2`, rows `y1..y2`
      (half-open). */
  datatype Roi = Roi(x1: int, y1: int, x2: int, y2: int)
  {
    ghost predicate Contains(px: int, py: int)
    {
      x1 <= px < x2 && y1 <= py < y2
    }
  }

  /** A region is usable when it is non-empty and inside a `width x height`
      image. */
  ghost predicate InImage(roi: Roi, width: nat, height: nat)
  {
    0 <= roi.x1 < roi.x2 <= width && 0 <= roi.y1 < roi.y2 <= height
  }

  /** The ratio of preview width to original width. The source divides by
      the image width, so an image of width 0 is outside its domain. */
  function ScalingFactor(origWidth: nat): (f: real)
    requires origWidth > 0
    ensures f > 0.0 && f * origWidth as real == DisplayWidth as real
  {
    DisplayWidth as real / origWidth as real
  }

  /** Preview height: the original height scaled by the factor and truncated,
      i.e. the largest height whose aspect ratio does not exceed the
      original's. */
  function DisplayHeight(origWidth: nat, origHeight: nat): (h: nat)
    requires origWidth > 0
    ensures h * origWidth <= DisplayWidth * origHeight < (h + 1) * origWidth
  {
    var f := ScalingFactor(origWidth);
    var t := Trunc(origHeight as real * f);
    TruncIsTruncation(origHeight as real * f);
    TruncScaled(origHeight, origWidth, DisplayWidth, t);
    t
  }

  /** Truncating `a * (d / w)` pins the result between two multiples of `w`. */
  lemma TruncScaled(a: nat, w: nat, d: nat, t: int)
    requires w > 0 && IsTruncation(a as real * (d as real / w as real), t)
    ensures 0 <= t && t * w <= d * a < (t + 1) * w
  {
    var q := a as real * (d as real / w as real);
    assert q * w as real == (d * a) as real;
    MulMono(t as real, q, w as real);
    MulMonoStrict(q, t as real + 1.0, w as real);
    assert (t * w) as real == t as real * w as real;
    assert ((t + 1) * w) as real == (t as real + 1.0) * w as real;
  }

  /** Dividing by the scaling factor multiplies by `width / 800`. */
  lemma UnscaleIsRatio(v: real, origWidth: nat)
    requires origWidth > 0
    ensures v / ScalingFactor(origWidth) == v * (origWidth as real / DisplayWidth as real)
  {
    var f := ScalingFactor(origWidth);
    var k := origWidth as real / DisplayWidth as real;
    assert k * f == 1.0;
  }

  /** The same for the far edge, computed as `a / f + b / f`. */
  lemma UnscaledSum(a: real, b: real, origWidth: nat)
    requires origWidth > 0
    ensures var f := ScalingFactor(origWidth);
            a / f + b / f == (a + b) * (origWidth as real / DisplayWidth as real)
  {
    var f := ScalingFactor(origWidth);
    assert a / f + b / f == (a + b) / f;
    UnscaleIsRatio(a + b, origWidth);
  }

  /** The rectangle fields read with `rect["left"]` and friends; a missing
      field raises `KeyError`, modelled as `None`. */
  function ReadRect(obj: CanvasObject): (r: Option<DisplayRect>)
    ensures r.Some? <==> "left" in obj && "top" in obj && "width" in obj && "height" in obj
  {
    if "left" in obj && "top" in obj && "width" in obj && "height" in obj
    then Some(DisplayRect(obj["left"], obj["top"], obj["width"], obj["height"]))
    else None
  }

  /** One axis of the conversion: the near edge `start / f` and the far edge
      `start / f + extent / f`, each truncated. The far edge is truncated
      from the unscaled sum, not assembled from truncated parts. */
  function UnscaleEdges(start: real, extent: real, origWidth: nat): (e: (int, int))
    requires origWidth > 0
    ensures var k := origWidth as real / DisplayWidth as real;
            e.0 == Trunc(start * k) && e.1 == Trunc((start + extent) * k)
  {
    var f := ScalingFactor(origWidth);
    UnscaleIsRatio(start, origWidth);
    UnscaledSum(start, extent, origWidth);
    (Trunc(start / f), Trunc(start / f + extent / f))
  }

  /** Scales a preview rectangle back to the original image and truncates
      it: the corner is `left / f` and `top / f`, the far edges the sums
      with `width / f` and `height / f`. */
  function MapRect(rect: DisplayRect, origWidth: nat): Roi
    requires origWidth > 0
  {
    var f := ScalingFactor(origWidth);
    var left, top := rect.left / f, rect.top / f;
    Roi(Trunc(left), Trunc(top), Trunc(left + rect.width / f), Trunc(top + rect.height / f))
  }

  /** Each axis of the mapped rectangle is one `UnscaleEdges`: columns from
      `left` and `width`, rows from `top` and `height`. */
  lemma MapRectByAxes(rect: DisplayRect, origWidth: nat)
    requires origWidth > 0
    ensures var roi := MapRect(rect, origWidth);
            && (roi.x1, roi.x2) == UnscaleEdges(rect.left, rect.width, origWidth)
            && (roi.y1, roi.y2) == UnscaleEdges(rect.top, rect.height, origWidth)
  {
  }

  /** Edges truncated from `start / f` and `start / f + extent / f` lie in
      the cells of size `f` that hold `start` and `start + extent`. */
  lemma EdgesCover(start: real, extent: real, f: real, e: (int, int))
    requires f > 0.0 && e == (Trunc(start / f), Trunc(start / f + extent / f))
    ensures 0.0 <= start ==> e.0 as real * f <= start < (e.0 + 1) as real * f
    ensures 0.0 <= start + extent ==> e.1 as real * f <= start + extent < (e.1 + 1) as real * f
  {
    PixelCovers(start, f);
    SumCovers(start, extent, f);
  }

  /** The far edge alone: truncating `a / f + b / f` is truncating
      `(a + b) / f`, so it names the cell holding `a + b`. */
  lemma SumCovers(a: real, b: real, f: real)
    requires f > 0.0
    ensures var n := Trunc(a / f + b / f);
            0.0 <= a + b ==> n as real * f <= a + b < (n + 1) as real * f
  {
    assert a / f + b / f == (a + b) / f;
    PixelCovers(a + b, f);
  }

  /** The rectangle's columns round-trip within one pixel: each
      non-negative drawn vertical edge lies in the scaled cell of the
      original column it maps to, `x1` from `left` and `x2` from
      `left + width`. */
  lemma MapRectCoversColumns(rect: DisplayRect, origWidth: nat)
    requires origWidth > 0
    ensures var f, roi := ScalingFactor(origWidth), MapRect(rect, origWidth);
            && (0.0 <= rect.left ==> roi.x1 as real * f <= rect.left < (roi.x1 + 1) as real * f)
            && (0.0 <= rect.left + rect.width ==>
                  roi.x2 as real * f <= rect.left + rect.width < (roi.x2 + 1) as real * f)
  {
    var roi := MapRect(rect, origWidth);
    EdgesCover(rect.left, rect.width, ScalingFactor(origWidth), (roi.x1, roi.x2));
  }

  /** The same for the rows: `y1` from `top` and `y2` from `top + height`. */
  lemma MapRectCoversRows(rect: DisplayRect, origWidth: nat)
    requires origWidth > 0
    ensures var f, roi := ScalingFactor(origWidth), MapRect(rect, origWidth);
            && (0.0 <= rect.top ==> roi.y1 as real * f <= rect.top < (roi.y1 + 1) as real * f)
            && (0.0 <= rect.top + rect.height ==>
                  roi.y2 as real * f <= rect.top + rect.height < (roi.y2 + 1) as real * f)
  {
    var roi := MapRect(rect, origWidth);
    EdgesCover(rect.top, rect.height, ScalingFactor(origWidth), (roi.y1, roi.y2));
  }

  /** Clamps a region to a `width x height` image; the upper corner is not
      raised and the lower corner is not lowered, so the result may be empty. */
  function Clamp(roi: Roi, width: nat, height: nat): (c: Roi)
    ensures 0 <= c.x1 && 0 <= c.y1 && c.x2 <= width && c.y2 <= height
    ensures forall px, py :: c.Contains(px, py) <==>
              roi.Contains(px, py) && 0 <= px < width && 0 <= py < height
    ensures 0 <= roi.x1 && 0 <= roi.y1 && roi.x2 <= width && roi.y2 <= height ==> c == roi
  {
    Roi(Max(0, roi.x1), Max(0, roi.y1), Min(width, roi.x2), Min(height, roi.y2))
  }

  /** Clamping twice is clamping once. */
  lemma ClampIdempotent(roi: Roi, width: nat, height: nat)
    ensures Clamp(Clamp(roi, width, height), width, height) == Clamp(roi, width, height)
  {
  }

  /** Validation after clamping: `None` is the "Invalid region selected!"
      case, exactly when the mapped region and the image share no pixel.
      Otherwise the region is non-empty, lies inside the image and holds
      exactly the shared pixels. */
  function ClampAndValidate(mapped: Roi, width: nat, height: nat): (r: Option<Roi>)
    ensures r.Some? ==> InImage(r.value, width, height)
    ensures r.Some? ==> forall px, py :: r.value.Contains(px, py) <==>
              mapped.Contains(px, py) && 0 <= px < width && 0 <= py < height
    ensures r.None? <==> forall px, py :: !(mapped.Contains(px, py) && 0 <= px < width && 0 <= py < height)
  {
    var c := Clamp(mapped, width, height);
    if c.x1 >= c.x2 || c.y1 >= c.y2 then
      None
    else
      assert c.Contains(c.x1, c.y1);
      Some(c)
  }

  /** The preview rectangle as a region of the original image, or `None`
      for an invalid selection. */
  function ToOriginalRoi(rect: DisplayRect, width: nat, height: nat): Option<Roi>
    requires width > 0
  {
    ClampAndValidate(MapRect(rect, width), width, height)
  }

  /** The circles the detector reports on the region's crop, after grey
      conversion and blurring (`prep`); none when it returns `None`. */
  function FoundIn<P, G>(img: Image<P>, roi: Roi, prep: Image<P> -> Image<G>, hough: Detector<G>): seq<LocalCircle>
    requires img.Wellformed()
  {
    match hough(prep(Crop(img, roi.y1, roi.y2, roi.x1, roi.x2)), HoughSettings)
    case None => []
    case Some(cs) => cs
  }

  /** `detect_and_draw_circles`: crops rows `y1..y2` and columns `x1..x2`,
      runs the detector, and reports each circle moved by `(x1, y1)`, one per
      detected circle, in detector order, radius unchanged. */
  method DetectAndDrawCircles<P, G>(img: Image<P>, roi: Roi, prep: Image<P> -> Image<G>, hough: Detector<G>)
      returns (circles: seq<ImageCircle>)
    requires img.Wellformed()
    ensures var found := FoundIn(img, roi, prep, hough);
            && |circles| == |found|
            && forall i :: 0 <= i < |circles| ==>
                 circles[i].x == roi.x1 + found[i].x && circles[i].y == roi.y1 + found[i].y
                 && circles[i].r == found[i].r
    ensures var found := FoundIn(img, roi, prep, hough);
            forall i :: 0 <= i < |circles| ==> ToLocal(circles[i], roi.x1, roi.y1) == Some(found[i])
    ensures hough(prep(Crop(img, roi.y1, roi.y2, roi.x1, roi.x2)), HoughSettings).None? ==> circles == []
  {
    var crop := Crop(img, roi.y1, roi.y2, roi.x1, roi.x2);
    var detected := hough(prep(crop), HoughSettings);
    circles := [];
    if detected.Some? {
      var cs := detected.value;
      for k := 0 to |cs|
        invariant |circles| == k
        invariant forall i :: 0 <= i < k ==> circles[i] == ToImage(cs[i], roi.x1, roi.y1)
      {
        circles := circles + [ToImage(cs[k], roi.x1, roi.y1)];
      }
    }
  }

  /** What the app shows for one interaction. */
  datatype Outcome =
    | NoRectangle                                   // nothing drawn yet
    | MissingField                                  // a rectangle field is absent (KeyError)
    | InvalidRegion                                 // "Invalid region selected!"
    | NoCircles(roi: Roi)                           // "No circles found in selected region!"
    | Detected(roi: Roi, circles: seq<ImageCircle>) // the numbered circle list

  /** One pass of the app over the drawn objects: the first object is the
      selection. The detector is only ever handed the crop of a non-empty
      region inside the image, and "no circles" is reported apart from an
      invalid selection. */
  method ProcessSelection<P, G>(img: Image<P>, objects: seq<CanvasObject>,
                                prep: Image<P> -> Image<G>, hough: Detector<G>)
      returns (outcome: Outcome)
    requires img.Wellformed() && img.width > 0
    ensures |objects| == 0 <==> outcome.NoRectangle?
    ensures outcome.MissingField? <==> |objects| > 0 && ReadRect(objects[0]).None?
    ensures outcome.InvalidRegion? <==>
              |objects| > 0 && ReadRect(objects[0]).Some?
              && ToOriginalRoi(ReadRect(objects[0]).value, img.width, img.height).None?
    ensures outcome.NoCircles? || outcome.Detected? ==>
              && |objects| > 0 && ReadRect(objects[0]).Some?
              && ToOriginalRoi(ReadRect(objects[0]).value, img.width, img.height) == Some(outcome.roi)
              && InImage(outcome.roi, img.width, img.height)
    ensures outcome.NoCircles? ==> FoundIn(img, outcome.roi, prep, hough) == []
    ensures outcome.Detected? ==>
              var found := FoundIn(img, outcome.roi, prep, hough);
              && 0 < |outcome.circles| == |found|
              && forall i :: 0 <= i < |found| ==>
                   ToLocal(outcome.circles[i], outcome.roi.x1, outcome.roi.y1) == Some(found[i])
  {
    if |objects| == 0 {
      return NoRectangle;
    }
    var rect := ReadRect(objects[0]);
    if rect.None? {
      return MissingField;
    }
    var roi := ToOriginalRoi(rect.value, img.width, img.height);
    if roi.None? {
      return InvalidRegion;
    }
    var circles := DetectAndDrawCircles(img, roi.value, prep, hough);
    if |circles| == 0 {
      outcome := NoCircles(roi.value);
    } else {
      outcome := Detected(roi.value, circles);
    }
  }

  /** A 1000 x 500 image previewed at 800 pixels wide (factor 0.8): the
      preview rectangle at (80, 40) of size 160 x 80 is the original region
      from (100, 50) to (300, 150). */
  lemma ScenarioScaledSelection()
    ensures ToOriginalRoi(DisplayRect(80.0, 40.0, 160.0, 80.0), 1000, 500) == Some(Roi(100, 50, 300, 150))
  {
    var m := MapRect(DisplayRect(80.0, 40.0, 160.0, 80.0), 1000);
    MapRectByAxes(DisplayRect(80.0, 40.0, 160.0, 80.0), 1000);
    TruncUnique(80.0 * (1000.0 / 800.0), 100);
    TruncUnique(40.0 * (1000.0 / 800.0), 50);
    TruncUnique(240.0 * (1000.0 / 800.0), 300);
    TruncUnique(120.0 * (1000.0 / 800.0), 150);
    assert m == Roi(100, 50, 300, 150);
  }

  /** A selection starting at preview column 960 maps to column 1200 of a
      1000-wide image: clamping puts its right edge at 1000, left of its left
      edge, so the region is rejected. */
  lemma ScenarioOffImageSelection()
    ensures ToOriginalRoi(DisplayRect(960.0, 40.0, 100.0, 80.0), 1000, 500).None?
  {
    var m := MapRect(DisplayRect(960.0, 40.0, 100.0, 80.0), 1000);
    MapRectByAxes(DisplayRect(960.0, 40.0, 100.0, 80.0), 1000);
    TruncUnique(960.0 * (1000.0 / 800.0), 1200);
    assert m.x1 == 1200;
    assert Clamp(m, 1000, 500).x2 <= 1000;
  }

  /** The far edge comes from truncating the unscaled sum: it is at most one
      pixel beyond the near edge plus the truncated extent. */
  lemma FarEdgeFromUnscaledSum(start: real, extent: real, origWidth: nat)
    requires origWidth > 0 && 0.0 <= start && 0.0 <= extent
    ensures var k := origWidth as real / DisplayWidth as real;
            var e := UnscaleEdges(start, extent, origWidth);
            e.0 + Trunc(extent * k) <= e.1 <= e.0 + Trunc(extent * k) + 1
  {
    var k := origWidth as real / DisplayWidth as real;
    var a, b := start * k, extent * k;
    assert (start + extent) * k == a + b;
    MulMono(0.0, start, k);
    MulMono(0.0, extent, k);
    TruncOfSum(a, b);
  }

  /** ... and it can indeed differ from the sum of truncations: on an image
      800 pixels wide, a selection from 0.5 of width 0.5 ends at column 1,
      though both parts truncate to 0. */
  lemma FarEdgeIsNotSumOfTruncations()
    ensures UnscaleEdges(0.5, 0.5, 800) == (0, 1)
    ensures Trunc(0.5) + Trunc(0.5) == 0
  {
    assert 0.5 * (800 as real / DisplayWidth as real) == 0.5;
    assert (0.5 + 0.5) * (800 as real / DisplayWidth as real) == 1.0;
  }
}
