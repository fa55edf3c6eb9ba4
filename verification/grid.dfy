/** Images as rectangular pixel arrays, and numpy's basic slicing of them
    (`img[a:b, c:d]`), including Python's treatment of negative and
    out-of-range slice bounds. */
module Grid {
  import opened Basics

  /** The half-open index range `lo..hi` a slice selects. */
  datatype Bounds = Bounds(lo: nat, hi: nat)
  {
    function Length(): nat { if lo <= hi then hi - lo else 0 }
  }

  /** Python's normalisation of one bound of a slice with step 1 on a
      sequence of length `n`: a negative bound counts from the end, and the
      result is clipped to `0..n`. */
  function NormalizeBound(i: int, n: nat): (k: nat)
    ensures k <= n
    ensures 0 <= i <= n ==> k == i
    ensures -(n as int) <= i < 0 ==> k == n + i
  {
    if i < 0 then Max(i + n, 0) else Min(i, n)
  }

  /** The indices `s[a:b]` selects from a sequence of length `n`; the range
      is empty when the normalised stop is not beyond the normalised start. */
  function SliceBounds(n: nat, a: int, b: int): (r: Bounds)
    ensures r.lo <= r.hi <= n
    ensures 0 <= a <= b <= n ==> r == Bounds(a, b)
    ensures 0 <= b <= a ==> r.Length() == 0
  {
    var lo := NormalizeBound(a, n);
    var hi := NormalizeBound(b, n);
    if hi < lo then Bounds(lo, lo) else Bounds(lo, hi)
  }

  /** A slice starting inside the sequence and running forward is cut off at
      the sequence's end. */
  lemma SliceClipsAtEnd(n: nat, a: int, b: int)
    requires 0 <= a <= n && a <= b
    ensures SliceBounds(n, a, b) == Bounds(a, Min(b, n))
  {
  }

  /** A pixel array with `height` rows of `width` pixels each; `P` is the
      pixel type (a colour triple, a grey level, ...). */
  datatype Image<P> = Image(height: nat, width: nat, rows: seq<seq<P>>)
  {
    ghost predicate Wellformed()
    {
      |rows| == height && forall i :: 0 <= i < |rows| ==> |rows[i]| == width
    }
  }

  /** numpy's `img[top:bottom, left:right]`: the rows the first slice selects,
      each cut down to the columns the second slice selects. */
  function Crop<P>(img: Image<P>, top: int, bottom: int, left: int, right: int): (r: Image<P>)
    requires img.Wellformed()
    ensures r.Wellformed()
    ensures r.height == SliceBounds(img.height, top, bottom).Length()
    ensures r.width == SliceBounds(img.width, left, right).Length()
    ensures var rb, cb := SliceBounds(img.height, top, bottom), SliceBounds(img.width, left, right);
            forall i, j :: 0 <= i < r.height && 0 <= j < r.width ==>
              r.rows[i][j] == img.rows[rb.lo + i][cb.lo + j]
  {
    var rb, cb := SliceBounds(img.height, top, bottom), SliceBounds(img.width, left, right);
    var h, w := rb.hi - rb.lo, cb.hi - cb.lo;
    Image(h, w, seq(h, i requires 0 <= i < h => seq(w, j requires 0 <= j < w => img.rows[rb.lo + i][cb.lo + j])))
  }

  /** When both ranges lie inside the image, the crop is exactly the
      `(bottom - top) x (right - left)` window whose pixel `(i, j)` is the
      original pixel `(top + i, left + j)`. */
  lemma CropInRange<P>(img: Image<P>, top: int, bottom: int, left: int, right: int)
    requires img.Wellformed()
    requires 0 <= top <= bottom <= img.height && 0 <= left <= right <= img.width
    ensures var r := Crop(img, top, bottom, left, right);
            && r.height == bottom - top && r.width == right - left
            && forall i, j :: 0 <= i < r.height && 0 <= j < r.width ==>
                 r.rows[i][j] == img.rows[top + i][left + j]
  {
  }
}
