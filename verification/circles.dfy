/** Circles in the two coordinate frames of the pipeline, and the circle
    detector seen from the outside. The detector reports circles in the frame
    of the crop it was given; translating by the crop's origin moves them into
    the frame of the full image. */
module Circles {
  import opened Basics
  import opened Grid

  /** A circle as the detector reports it: centre and radius relative to the
      crop, rounded and made unsigned (`np.uint16(np.around(...))`). */
  datatype LocalCircle = LocalCircle(x: nat, y: nat, r: nat)

  /** A circle in the coordinates of the full image. */
  datatype ImageCircle = ImageCircle(x: int, y: int, r: nat)

  /** The knobs of the Hough gradient detector: accumulator resolution
      divisor, minimum centre distance, edge and vote thresholds, and the
      radius range (0 lets the detector choose). */
  datatype Params = Params(dp: real, minDist: real, param1: real, param2: real,
                           minRadius: nat, maxRadius: nat)

  /** A detector run on a single-channel image: `None` when it finds nothing
      (HoughCircles returns `None`), otherwise the circles in its order. */
  type Detector<!G> = (Image<G>, Params) -> Option<seq<LocalCircle>>

  /** Moves a crop-relative circle into full-image coordinates, the crop
      having its top-left corner at `(left, top)`. */
  function ToImage(c: LocalCircle, left: int, top: int): (d: ImageCircle)
    ensures ToLocal(d, left, top) == Some(c)
  {
    ImageCircle(c.x + left, c.y + top, c.r)
  }

  /** The inverse translation: the circle relative to the crop at
      `(left, top)`, or `None` when its centre lies above or to the left of
      that crop. */
  function ToLocal(d: ImageCircle, left: int, top: int): (c: Option<LocalCircle>)
    ensures c.Some? <==> left <= d.x && top <= d.y
  {
    if left <= d.x && top <= d.y then Some(LocalCircle(d.x - left, d.y - top, d.r)) else None
  }

  /** `ToImage` is a pure translation: it moves every centre by the same
      vector and keeps radii, so distances between circles are unchanged. */
  lemma ToImageIsTranslation(a: LocalCircle, b: LocalCircle, left: int, top: int)
    ensures ToImage(a, left, top).x - ToImage(b, left, top).x == a.x - b.x
    ensures ToImage(a, left, top).y - ToImage(b, left, top).y == a.y - b.y
    ensures ToImage(a, left, top).r == a.r
  {
  }

  /** A centre the detector places inside a `width x height` crop whose corner
      is `(left, top)` lands inside that window of the full image. */
  lemma ToImageStaysInWindow(c: LocalCircle, left: int, top: int, width: nat, height: nat)
    requires c.x < width && c.y < height
    ensures left <= ToImage(c, left, top).x < left + width
    ensures top <= ToImage(c, left, top).y < top + height
  {
  }
}
