/** The zoom-and-pan viewer (Get_Exect_corrdinate_By_Clicking.py): a zoom
    trackbar and two pan trackbars define the view, the zoomed image is pasted
    into a canvas of the original size at the pan offset, and a click on the
    canvas is mapped back to original-image coordinates. The source keeps the
    view in module globals; here it is an explicit value. */
module ClickViewer {
  import opened Basics
  import opened Grid

  /** Zoom factor and pan offsets of the viewer. */
  datatype ViewState = ViewState(scale: real, dx: int, dy: int)

  /** The view before the first trackbar event: unit zoom, no pan. */
  const InitialView: ViewState := ViewState(1.0, 0, 0)

  /** Trackbar ranges: zoom positions 0..30, pan positions 0..200. */
  const ZoomMax: nat := 30
  const PanMax: nat := 200

  /** Zoom from the trackbar position: a tenth of it, raised to 0.1 so that
      the view never collapses and the click mapping can divide by it. */
  function Zoom(pos: int): (s: real)
    ensures s >= 0.1 && s >= pos as real / 10.0
    ensures 1 <= pos ==> s == pos as real / 10.0
    ensures s == 0.1 || s == pos as real / 10.0
  {
    var s := pos as real / 10.0;
    if s < 0.1 then 0.1 else s
  }

  /** Over the trackbar's range the zoom runs from 0.1 to 3.0. */
  lemma ZoomRange(pos: int)
    requires 0 <= pos <= ZoomMax
    ensures 0.1 <= Zoom(pos) <= 3.0
  {
  }

  /** Moving the zoom trackbar right never zooms out. */
  lemma ZoomMonotone(p: int, q: int)
    requires p <= q
    ensures Zoom(p) <= Zoom(q)
  {
  }

  /** Pan offset from a trackbar position: centred at position 100. */
  function PanOffset(pos: int): int
  {
    pos - 100
  }

  /** Over the trackbar's range the pan runs from -100 to 100, and position
      100 means no pan. */
  lemma PanRange(pos: int)
    requires 0 <= pos <= PanMax
    ensures -100 <= PanOffset(pos) <= 100
    ensures PanOffset(pos) == 0 <==> pos == 100
  {
  }

  /** The view after a trackbar event. */
  function UpdateView(zoomPos: int, panXPos: int, panYPos: int): (v: ViewState)
    ensures v.scale >= 0.1
    ensures 0 <= zoomPos <= ZoomMax ==> v.scale <= 3.0
    ensures 0 <= panXPos <= PanMax && 0 <= panYPos <= PanMax ==>
              -100 <= v.dx <= 100 && -100 <= v.dy <= 100
  {
    ViewState(Zoom(zoomPos), PanOffset(panXPos), PanOffset(panYPos))
  }

  /** The trackbars' initial positions (10, 100, 100) give the initial view. */
  lemma InitialPositionsGiveInitialView()
    ensures UpdateView(10, 100, 100) == InitialView
  {
  }

  /** `get_coordinates`: a click at canvas point `(x, y)` is un-panned and
      un-zoomed, each coordinate truncated toward zero. */
  function ClickToImage(v: ViewState, x: int, y: int): (p: (int, int))
    requires v.scale > 0.0
  {
    (Unview(x, v.dx, v.scale), Unview(y, v.dy, v.scale))
  }

  /** One coordinate of a click: un-panned by `d`, un-zoomed by `s`,
      truncated toward zero. */
  function Unview(c: int, d: int, s: real): int
    requires s > 0.0
  {
    Trunc((c - d) as real / s)
  }

  /** The click mapping inverts the view: a canvas point that is the exact
      zoomed and panned image of original point `(px, py)` maps back to it. */
  lemma ClickInvertsView(v: ViewState, px: int, py: int, x: int, y: int)
    requires v.scale > 0.0
    requires x as real == v.dx as real + px as real * v.scale
    requires y as real == v.dy as real + py as real * v.scale
    ensures ClickToImage(v, x, y) == (px, py)
  {
    assert (x - v.dx) as real / v.scale == px as real;
    assert (y - v.dy) as real / v.scale == py as real;
    TruncUnique(px as real, px);
    TruncUnique(py as real, py);
  }

  /** A click reports the original column whose zoomed cell holds it; left
      of the pan origin the cell is counted toward zero. */
  lemma ClickFindsColumn(v: ViewState, x: int, y: int)
    requires v.scale > 0.0
    ensures var p, s := ClickToImage(v, x, y), v.scale;
            && (v.dx <= x ==> p.0 as real * s <= (x - v.dx) as real < (p.0 + 1) as real * s)
            && (x < v.dx ==> (p.0 - 1) as real * s < (x - v.dx) as real <= p.0 as real * s)
  {
    assert ClickToImage(v, x, y).0 == Unview(x, v.dx, v.scale);
    AxisFindsCell(x, v.dx, v.scale);
  }

  /** The same for the row: above the pan origin the cell is counted toward
      zero. */
  lemma ClickFindsRow(v: ViewState, x: int, y: int)
    requires v.scale > 0.0
    ensures var p, s := ClickToImage(v, x, y), v.scale;
            && (v.dy <= y ==> p.1 as real * s <= (y - v.dy) as real < (p.1 + 1) as real * s)
            && (y < v.dy ==> (p.1 - 1) as real * s < (y - v.dy) as real <= p.1 as real * s)
  {
    assert ClickToImage(v, x, y).1 == Unview(y, v.dy, v.scale);
    AxisFindsCell(y, v.dy, v.scale);
  }

  /** One coordinate of a click: `c` un-panned by `d` and un-zoomed by `s`
      names the cell of size `s` holding `c - d`. */
  lemma AxisFindsCell(c: int, d: int, s: real)
    requires s > 0.0
    ensures var n := Unview(c, d, s);
            && (d <= c ==> n as real * s <= (c - d) as real < (n + 1) as real * s)
            && (c < d ==> (n - 1) as real * s < (c - d) as real <= n as real * s)
  {
    PixelCovers((c - d) as real, s);
  }

  /** A click at (410, 210) with zoom 2 and pan (10, -5) reports (200, 107). */
  lemma ScenarioZoomedClick()
    ensures ClickToImage(ViewState(2.0, 10, -5), 410, 210) == (200, 107)
  {
    TruncUnique(400.0 / 2.0, 200);
    TruncUnique(215.0 / 2.0, 107);
  }

  /** One axis of the overlay: the zoomed image's index range
      `srcStart..srcEnd` is copied to the canvas range `dstStart..dstEnd`. */
  datatype Window = Window(srcStart: int, srcEnd: int, dstStart: int, dstEnd: int)

  /** The overlay window as the source computes it, for a canvas of length
      `canvasLen`, a zoomed image of length `resizedLen` and pan `d`. Its two
      ranges always have the same nominal length. */
  function OverlayAsWritten(canvasLen: nat, resizedLen: nat, d: int): (w: Window)
    ensures 0 <= w.srcStart && w.srcEnd <= resizedLen && 0 <= w.dstStart
    ensures w.dstEnd - w.dstStart == w.srcEnd - w.srcStart
  {
    var start := Max(-d, 0);
    var end := Min(canvasLen - d, resizedLen);
    var dst := Max(d, 0);
    Window(start, end, dst, dst + (end - start))
  }

  /** True when `d` moves canvas index `i` onto an index of the zoomed image. */
  predicate ShowsImage(canvasLen: nat, resizedLen: nat, d: int, i: int)
  {
    0 <= i < canvasLen && 0 <= i - d < resizedLen
  }

  /** When the computed start does not pass the end, both ranges are plain
      in-bounds slices of equal length, the destination is shifted from the
      source by exactly the pan, and it covers exactly the canvas indices the
      panned image reaches. */
  lemma OverlayAsWrittenInBounds(canvasLen: nat, resizedLen: nat, d: int)
    requires var w := OverlayAsWritten(canvasLen, resizedLen, d); w.srcStart <= w.srcEnd
    ensures var w := OverlayAsWritten(canvasLen, resizedLen, d);
            && 0 <= w.dstStart <= w.dstEnd <= canvasLen
            && SliceBounds(resizedLen, w.srcStart, w.srcEnd) == Bounds(w.srcStart, w.srcEnd)
            && SliceBounds(canvasLen, w.dstStart, w.dstEnd) == Bounds(w.dstStart, w.dstEnd)
            && w.dstStart - w.srcStart == d
            && forall i :: w.dstStart <= i < w.dstEnd <==> ShowsImage(canvasLen, resizedLen, d, i)
  {
  }

  /** numpy can assign a source range of length `src` to a destination range
      of length `dst` only when they match or the source has length 1. */
  predicate Broadcastable(src: nat, dst: nat)
  {
    src == dst || src == 1
  }

  /** The defect: a 500-pixel canvas, the image zoomed to 50 pixels and
      panned 60 pixels left gives start 60 past end 50. The source slice is
      empty, but the destination end `0 + (50 - 60) = -10` counts from the
      canvas end, selecting 490 pixels, and the assignment fails. */
  lemma OverlayAsWrittenMismatch()
    ensures var w := OverlayAsWritten(500, 50, -60);
            && w == Window(60, 50, 0, -10)
            && SliceBounds(50, w.srcStart, w.srcEnd).Length() == 0
            && SliceBounds(500, w.dstStart, w.dstEnd).Length() == 490
            && !Broadcastable(0, 490)
  {
  }

  /** The mirror case, on a canvas narrower than the pan: a 50-pixel canvas,
      the image zoomed to 150 pixels and panned 100 pixels right gives start
      0 past end -50. Now the destination `100:50` is empty while the source
      `0:-50` counts from the image's end and selects 100 pixels, so the
      assignment fails the other way round. */
  lemma OverlayAsWrittenMirrorMismatch()
    ensures var w := OverlayAsWritten(50, 150, 100);
            && w == Window(0, -50, 100, 50)
            && SliceBounds(150, w.srcStart, w.srcEnd).Length() == 100
            && SliceBounds(50, w.dstStart, w.dstEnd).Length() == 0
            && !Broadcastable(100, 0)
  {
  }

  /** The mirror case fails only when the wrapped source keeps at least two
      pixels: a 10-pixel canvas, the image zoomed to 1 pixel and panned 50
      right gives source `0:-40` and destination `50:10`, both empty. */
  lemma OverlayAsWrittenMirrorEmpty()
    ensures var w := OverlayAsWritten(10, 1, 50);
            && w == Window(0, -40, 50, 10)
            && SliceBounds(1, w.srcStart, w.srcEnd).Length() == 0
            && SliceBounds(10, w.dstStart, w.dstEnd).Length() == 0
            && Broadcastable(0, 0)
  {
  }

  /** ... and a wrapped source of one pixel broadcasts onto the empty
      destination: a 40-pixel canvas, the image zoomed to 60 pixels and
      panned 99 right gives source `0:-59` (1 pixel) and destination
      `99:40` (empty). */
  lemma OverlayAsWrittenMirrorBroadcast()
    ensures var w := OverlayAsWritten(40, 60, 99);
            && w == Window(0, -59, 99, 40)
            && SliceBounds(60, w.srcStart, w.srcEnd).Length() == 1
            && SliceBounds(40, w.dstStart, w.dstEnd).Length() == 0
            && Broadcastable(1, 0)
  {
  }

  /** Not every inverted window fails: when the image is panned so far left
      that even the wrapped destination end falls before the canvas start
      (canvas 30, zoomed image 3, pan -60), both slices are empty and the
      assignment is a no-op. */
  lemma OverlayAsWrittenBothEmpty()
    ensures var w := OverlayAsWritten(30, 3, -60);
            && w == Window(60, 3, 0, -57)
            && SliceBounds(3, w.srcStart, w.srcEnd).Length() == 0
            && SliceBounds(30, w.dstStart, w.dstEnd).Length() == 0
            && Broadcastable(0, 0)
  {
  }

  /** The overlay window with the defect removed: when the panned image
      misses the canvas the window is empty. Both ranges are in bounds and of
      equal length for every pan, the destination is the source shifted by
      the pan, and it covers exactly the canvas indices the image reaches. */
  function Overlay(canvasLen: nat, resizedLen: nat, d: int): (w: Window)
    ensures 0 <= w.srcStart <= w.srcEnd <= resizedLen
    ensures 0 <= w.dstStart <= w.dstEnd <= canvasLen
    ensures w.dstEnd - w.dstStart == w.srcEnd - w.srcStart
    ensures w.dstStart < w.dstEnd ==> w.dstStart - w.srcStart == d
    ensures forall i :: w.dstStart <= i < w.dstEnd <==> ShowsImage(canvasLen, resizedLen, d, i)
  {
    var w := OverlayAsWritten(canvasLen, resizedLen, d);
    if w.srcStart <= w.srcEnd then
      OverlayAsWrittenInBounds(canvasLen, resizedLen, d);
      w
    else
      Window(0, 0, 0, 0)
  }

  /** `update_display`'s canvas: the original image's size whatever the
      zoom, white except where the panned zoomed image reaches, and there
      showing the zoomed pixel the pan moved to that spot. */
  function Render<P>(image: Image<P>, resized: Image<P>, white: P, v: ViewState): (canvas: Image<P>)
    requires resized.Wellformed()
    ensures canvas.Wellformed() && canvas.height == image.height && canvas.width == image.width
    ensures forall i, j :: 0 <= i < canvas.height && 0 <= j < canvas.width ==>
              canvas.rows[i][j] ==
                if ShowsImage(image.height, resized.height, v.dy, i)
                   && ShowsImage(image.width, resized.width, v.dx, j)
                then resized.rows[i - v.dy][j - v.dx]
                else white
  {
    var wy := Overlay(image.height, resized.height, v.dy);
    var wx := Overlay(image.width, resized.width, v.dx);
    Image(image.height, image.width,
          seq(image.height, i =>
            seq(image.width, j =>
              if wy.dstStart <= i < wy.dstEnd && wx.dstStart <= j < wx.dstEnd
              then resized.rows[wy.srcStart + (i - wy.dstStart)][wx.srcStart + (j - wx.dstStart)]
              else white)))
  }
}
