/** The full-size selection app (A.py): the drawing canvas has the image's
    own size, so rectangle fields are image coordinates already. They are
    truncated, the grey image is sliced with them, the fixed-radius detector
    runs on the slice, and each circle is shifted by the rectangle's corner. */
module RegionSelect {
  import opened Basics
  import opened Grid
  import opened Circles

  /** `detect_circles`' default settings: accumulator resolution divisor 1.2,
      centres at least 20 pixels apart, thresholds 50/30, and a radius fixed
      at 17 pixels (one known marker size). */
  const DefaultParams: Params := Params(1.2, 20.0, 50.0, 30.0, 17, 17)

  /** A rectangle in image coordinates, fields already truncated. */
  datatype Region = Region(left: int, top: int, width: int, height: int)

  /** `int(rect.get(key, 0))`: the field truncated toward zero, or 0 when the
      canvas object lacks it. */
  function FieldOrZero(obj: CanvasObject, key: string): (n: int)
    ensures key !in obj ==> n == 0
    ensures key in obj ==> IsTruncation(obj[key], n)
  {
    if key in obj then
      TruncIsTruncation(obj[key]);
      Trunc(obj[key])
    else
      0
  }

  /** The selected rectangle of a canvas object. */
  function ReadRegion(obj: CanvasObject): Region
  {
    Region(FieldOrZero(obj, "left"), FieldOrZero(obj, "top"),
           FieldOrZero(obj, "width"), FieldOrZero(obj, "height"))
  }

  /** `gray[top:top+height, left:left+width]`: no clamping and no rescaling,
      so Python's slice rules apply as they are. */
  function SelectedRegion<G>(gray: Image<G>, reg: Region): Image<G>
    requires gray.Wellformed()
  {
    Crop(gray, reg.top, reg.top + reg.height, reg.left, reg.left + reg.width)
  }

  /** With a non-negative corner inside the image and non-negative size, the
      slice is the rectangle cut off at the image's right and bottom edges:
      pixel `(i, j)` of the slice is pixel `(top + i, left + j)` of the image,
      because the canvas has the image's size and nothing is rescaled. */
  lemma SelectedRegionClipsAtEdges<G>(gray: Image<G>, reg: Region)
    requires gray.Wellformed()
    requires 0 <= reg.left <= gray.width && 0 <= reg.top <= gray.height
    requires 0 <= reg.width && 0 <= reg.height
    ensures var r := SelectedRegion(gray, reg);
            && r.height == Min(reg.top + reg.height, gray.height) - reg.top
            && r.width == Min(reg.left + reg.width, gray.width) - reg.left
            && forall i, j :: 0 <= i < r.height && 0 <= j < r.width ==>
                 r.rows[i][j] == gray.rows[reg.top + i][reg.left + j]
  {
    SliceClipsAtEnd(gray.height, reg.top, reg.top + reg.height);
    SliceClipsAtEnd(gray.width, reg.left, reg.left + reg.width);
  }

  /** `detect_circles`: the detector's circles, or the empty list when it
      finds none. */
  function DetectCircles<G>(region: Image<G>, params: Params, hough: Detector<G>): (cs: seq<LocalCircle>)
    ensures hough(region, params).None? ==> cs == []
    ensures hough(region, params).Some? ==> cs == hough(region, params).value
  {
    match hough(region, params)
    case None => []
    case Some(found) => found
  }

  /** The `circle_data` loop: one entry per detected circle, in detector
      order, centre shifted by `(left, top)`, radius kept. */
  method CircleData(circles: seq<LocalCircle>, left: int, top: int) returns (data: seq<ImageCircle>)
    ensures |data| == |circles|
    ensures forall i :: 0 <= i < |data| ==>
              data[i].x == circles[i].x + left && data[i].y == circles[i].y + top
              && data[i].r == circles[i].r
    ensures forall i :: 0 <= i < |data| ==> ToLocal(data[i], left, top) == Some(circles[i])
  {
    data := [];
    for k := 0 to |circles|
      invariant |data| == k
      invariant forall i :: 0 <= i < k ==> data[i] == ToImage(circles[i], left, top)
    {
      data := data + [ToImage(circles[k], left, top)];
    }
  }

  /** One pass of the app: nothing without a drawn object; otherwise the
      first object's rectangle is sliced from the grey image, the detector
      runs on that slice with the default settings, and the circles are
      reported in full-image coordinates. */
  method ProcessRegion<G>(gray: Image<G>, objects: seq<CanvasObject>, hough: Detector<G>)
      returns (report: Option<seq<ImageCircle>>)
    requires gray.Wellformed()
    ensures report.None? <==> |objects| == 0
    ensures report.Some? ==>
              var reg := ReadRegion(objects[0]);
              var found := DetectCircles(SelectedRegion(gray, reg), DefaultParams, hough);
              && |report.value| == |found|
              && forall i :: 0 <= i < |found| ==>
                   ToLocal(report.value[i], reg.left, reg.top) == Some(found[i])
  {
    if |objects| == 0 {
      return None;
    }
    var reg := ReadRegion(objects[0]);
    var region := SelectedRegion(gray, reg);
    var circles := DetectCircles(region, DefaultParams, hough);
    var data := CircleData(circles, reg.left, reg.top);
    report := Some(data);
  }
}
