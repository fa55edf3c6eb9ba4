# Coordinate bookkeeping of the OMR circle-detection tools

This project models the integer and exact-ratio geometry around an external
circle detector in three scripts of an OMR (bubble-sheet) toolkit:

- **Atwo.py**, the scaled-preview app. The image is shown 800 pixels wide.
  A rectangle drawn on the preview is divided by the scaling factor
  `800 / width` and truncated. It is then clamped to the image and rejected
  when empty. Otherwise the crop goes to the detector, and every circle is
  translated by the crop's corner back into original-image coordinates.
- **A.py**, the full-size selection app. The canvas has the image's own
  size, so no rescaling happens. Each field is read with `int(rect.get(key, 0))`.
  The grey image is sliced without clamping, a detector with a fixed radius
  of 17 runs on the slice, and the circles are shifted by `(left, top)`.
- **Get_Exect_corrdinate_By_Clicking.py**, the zoom/pan viewer. The zoom is
  the trackbar position divided by 10, floored at 0.1. The pan is the
  position minus 100. The zoomed image is pasted into a canvas of the
  original size. A click is mapped back with `int((x - dx) / scale)`.

Modules: `Basics` holds truncation toward zero (Python's `int()`) and
`Option`. `Grid` holds images and numpy slicing with Python's rules for
negative and out-of-range bounds. `Circles` has crop-frame and image-frame
circles, the translation between them, and the detector as an abstract
function. `RoiMapper` models Atwo.py, `RegionSelect` models A.py and
`ClickViewer` models the viewer.

Python floats are exact `real`s here. The detector (grey conversion, blur,
Hough transform, rounding) is a function parameter. It returns `None` or a
sequence of non-negative integer triples. The viewer's module globals become
an explicit `ViewState` value.

The model follows the code in three places where a simpler reading of the
scripts would differ:
- Atwo.py truncates the right and bottom edges from the unscaled sums
  `left + width` and `top + height`. It does not truncate the width and
  height on their own.
- The radius fixed at 17 belongs to A.py (`detect_circles` defaults). Atwo.py
  uses `minRadius = maxRadius = 0` with a 9x9 blur.
- A.py neither clamps nor validates its slice.

## Model

| member | source | states |
|---|---|---|
| Basics.TruncUnique | Atwo.py:88-89 | `int()` on a float rounds toward zero: the integer n with n <= v < n+1 (v >= 0) or n-1 < v <= n (v < 0) is unique and equals `Trunc(v)` |
| Basics.TruncOfSum | Atwo.py:88-89 | for non-negative parts, truncating a sum gives the sum of the truncations or one more |
| Grid.Crop | Atwo.py:10 | `img[a:b, c:d]` has the normalised slice lengths as its size, and its pixel (i, j) is the original pixel at the normalised starts plus (i, j) |
| Grid.SliceClipsAtEnd | A.py:64 | a slice that starts inside the sequence and runs forward selects start..min(stop, length) |
| Grid.CropInRange | Atwo.py:9-10 | for in-range bounds the crop is exactly (y2-y1) x (x2-x1) and pixel (i, j) is original (y1+i, x1+j) |
| Circles.ToImage | Atwo.py:35-37 | moving a crop circle by the crop corner can be undone exactly: translating back gives the detector's circle |
| Circles.ToImageIsTranslation | A.py:72-75 | the shift is a pure translation: differences between centres are kept and the radius is unchanged |
| Circles.ToImageStaysInWindow | Atwo.py:35-39 | a centre inside a w x h crop lands inside the matching w x h window of the full image |
| RoiMapper.ScalingFactor | Atwo.py:61-62 | the factor is positive, and multiplied by the original width it gives the 800-pixel preview width |
| RoiMapper.DisplayHeight | Atwo.py:63 | preview height h satisfies h*W <= 800*H < (h+1)*W, i.e. the truncated scaled height |
| RoiMapper.UnscaleEdges | Atwo.py:83-89 | dividing by the factor is multiplying by W/800; the near edge is trunc(start*W/800) and the far edge trunc((start+extent)*W/800) |
| RoiMapper.MapRectByAxes | Atwo.py:83-89 | the mapped columns are `UnscaleEdges(left, width)` and the mapped rows `UnscaleEdges(top, height)`, so the per-axis facts hold of the rectangle |
| RoiMapper.MapRectCoversColumns | Atwo.py:83-89 | the whole rectangle round-trips within one pixel, columns: x1 * f <= left < (x1 + 1) * f and x2 * f <= left + width < (x2 + 1) * f for non-negative edges |
| RoiMapper.MapRectCoversRows | Atwo.py:83-89 | the same for rows: y1 from top and y2 from top + height |
| RoiMapper.FarEdgeFromUnscaledSum | Atwo.py:88-89 | x2 lies between x1 + trunc(width) and x1 + trunc(width) + 1 |
| RoiMapper.FarEdgeIsNotSumOfTruncations | Atwo.py:88-89 | x2 can differ from trunc(left) + trunc(width): from 0.5 of width 0.5 gives edge 1, not 0 |
| RoiMapper.ReadRect | Atwo.py:80-86 | a rectangle is read exactly when all four fields are present; a missing field is the KeyError case |
| RoiMapper.Clamp | Atwo.py:92-93 | after clamping 0 <= x1, 0 <= y1, x2 <= W, y2 <= H; it keeps exactly the pixels shared with the image, and a region already inside is unchanged |
| RoiMapper.ClampIdempotent | Atwo.py:92-93 | clamping a clamped region changes nothing |
| RoiMapper.ClampAndValidate | Atwo.py:92-99 | "invalid region" exactly when the truncated rectangle and the image share no pixel; otherwise the region is non-empty, inside the image, and holds exactly the shared pixels |
| RoiMapper.DetectAndDrawCircles | Atwo.py:8-42 | one result per detector circle on the crop rows y1..y2 and columns x1..x2, in detector order, each (x1+x, y1+y, r) and each translating back to its detector circle; empty when the detector returns None |
| RoiMapper.ProcessSelection | Atwo.py:78-111 | nothing drawn, missing field, invalid region, no circles and detected circles are told apart; the detector only sees the crop of a non-empty in-image region; reported circles translate back to the detector's |
| RoiMapper.ScenarioScaledSelection | Atwo.py:61-99 | a 1000x500 image with preview rectangle (80, 40, 160, 80) gives region (100, 50)-(300, 150) |
| RoiMapper.ScenarioOffImageSelection | Atwo.py:88-96 | a preview rectangle at column 960 of a 1000-wide image maps to column 1200 and is rejected after clamping |
| RegionSelect.FieldOrZero | A.py:56-59 | each field is its value truncated toward zero, or 0 when the canvas object lacks it |
| RegionSelect.SelectedRegionClipsAtEdges | A.py:63-64 | with a non-negative corner inside the image and non-negative size, the slice spans rows top..min(top+h, H) and columns left..min(left+w, W); pixel (i, j) is image pixel (top+i, left+j), with no rescaling because the canvas is the image's size |
| RegionSelect.CircleData | A.py:69-76 | exactly one entry per detected circle, in order, each {x+left, y+top, r}; each translates back to its detector circle |
| RegionSelect.ProcessRegion | A.py:52-79 | no report without a drawn object; otherwise one entry per circle the default-settings detector finds in the selected slice, translating back to it |
| ClickViewer.Zoom | Get_Exect_corrdinate_By_Clicking.py:22-24 | the zoom is exactly max(0.1, position/10): it is one of the two, at least both, and position/10 from position 1 on |
| ClickViewer.ZoomRange | Get_Exect_corrdinate_By_Clicking.py:22-24 | for trackbar positions 0..30 the zoom lies in [0.1, 3.0] |
| ClickViewer.ZoomMonotone | Get_Exect_corrdinate_By_Clicking.py:22-24 | a higher trackbar position never gives a smaller zoom |
| ClickViewer.PanRange | Get_Exect_corrdinate_By_Clicking.py:27-28 | for positions 0..200 the pan lies in [-100, 100], and it is 0 exactly at position 100 |
| ClickViewer.UpdateView | Get_Exect_corrdinate_By_Clicking.py:18-28 | the view's zoom is at least 0.1, so the click mapping can divide by it; in trackbar range zoom <= 3 and pans lie in [-100, 100] |
| ClickViewer.InitialPositionsGiveInitialView | Get_Exect_corrdinate_By_Clicking.py:62-64 | the initial trackbar positions 10, 100, 100 give zoom 1 and no pan, as the globals start |
| ClickViewer.ClickInvertsView | Get_Exect_corrdinate_By_Clicking.py:10-14 | a canvas point that is exactly the zoomed and panned image of an original point maps back to that point |
| ClickViewer.ClickFindsColumn | Get_Exect_corrdinate_By_Clicking.py:13-14 | the reported column names the zoomed cell holding the click: x1 * s <= x - dx < (x1 + 1) * s, counted toward zero left of the pan origin |
| ClickViewer.ClickFindsRow | Get_Exect_corrdinate_By_Clicking.py:13-14 | the same for the reported row, counted toward zero above the pan origin |
| ClickViewer.ScenarioZoomedClick | Get_Exect_corrdinate_By_Clicking.py:13-14 | a click at (410, 210) with zoom 2 and pan (10, -5) reports (200, 107) |
| ClickViewer.OverlayAsWritten | Get_Exect_corrdinate_By_Clicking.py:40-45 | x_start >= 0, x_end <= resized_w, destination start >= 0, and both ranges have the same nominal length |
| ClickViewer.OverlayAsWrittenInBounds | Get_Exect_corrdinate_By_Clicking.py:40-46 | when x_start <= x_end both slices are in bounds and of equal length, the destination is the source shifted by the pan, and it covers exactly the canvas indices the panned image reaches |
| ClickViewer.OverlayAsWrittenMismatch | Get_Exect_corrdinate_By_Clicking.py:40-46 | 500-pixel canvas, 50-pixel zoomed image, pan -60: the source slice is empty but the destination selects 490 pixels, so the assignment cannot broadcast |
| ClickViewer.OverlayAsWrittenMirrorMismatch | Get_Exect_corrdinate_By_Clicking.py:40-46 | 50-pixel canvas, 150-pixel zoomed image, pan 100: the destination slice is empty but the source selects 100 pixels, so the assignment cannot broadcast |
| ClickViewer.OverlayAsWrittenMirrorEmpty | Get_Exect_corrdinate_By_Clicking.py:40-46 | 10-pixel canvas, 1-pixel zoomed image, pan 50: the window is inverted but both slices are empty, so the assignment does nothing |
| ClickViewer.OverlayAsWrittenMirrorBroadcast | Get_Exect_corrdinate_By_Clicking.py:40-46 | 40-pixel canvas, 60-pixel zoomed image, pan 99: the wrapped source keeps one pixel and the destination is empty, which numpy broadcasts without error |
| ClickViewer.OverlayAsWrittenBothEmpty | Get_Exect_corrdinate_By_Clicking.py:40-46 | 30-pixel canvas, 3-pixel zoomed image, pan -60: the window is inverted but both slices are empty, so the assignment does nothing |
| ClickViewer.Overlay | Get_Exect_corrdinate_By_Clicking.py:40-46 | for every pan: both ranges are in bounds and of equal length, shifted by the pan, covering exactly the canvas indices the image reaches (empty when it reaches none) |
| ClickViewer.Render | Get_Exect_corrdinate_By_Clicking.py:31-46 | the canvas has the original h x w size for any zoom; pixel (i, j) shows zoomed pixel (i-dy, j-dx) where that exists and white elsewhere |

## Left out

- The circle detector itself (`cv2.HoughCircles`), together with
  `cv2.cvtColor`, `cv2.GaussianBlur`, `np.around` and `np.uint16`. These are
  library numerics. The detector is an abstract function returning non-negative
  integer triples. Grey conversion and blur form an abstract `prep` parameter.
  uint16 wrap-around of the shifted coordinates is not modelled.
- The detector's behaviour on an empty slice. A.py passes any slice, even an
  empty one, and the abstract detector is total.
- `cv2.resize`, which is floating-point interpolation. The zoomed image is
  a given input to `Render`, and its size is not tied to the zoom.
- Floating-point rounding. Values are exact reals, so a zoom of 0.3 is
  exactly 3/10 here.
- The Streamlit and OpenCV UI: uploads, option selection, the drawing
  canvas, windows, trackbars, mouse callbacks, `imshow`, `waitKey`,
  messages and printing. A missing `json_data` is treated like an empty
  object list.
- Image decoding (`Image.open`, `cv2.imdecode`, `cv2.imread`) and drawing
  circles onto the output copy (`cv2.circle`).
- An image of width 0 in Atwo.py. The source divides by the width there and
  would raise, so `ScalingFactor` and the functions using it require a
  positive width.
- ClickViewer.ClickToImage: carries no contract of its own. Its properties
  are `ClickInvertsView`, `ClickFindsColumn`, `ClickFindsRow` and
  `ScenarioZoomedClick`.
- ClickViewer.Unview (Get_Exect_corrdinate_By_Clicking.py:13-14): one
  coordinate of the click mapping, `int((c - d) / scale)`. It has no
  contract of its own; its property is `AxisFindsCell`.
- ClickViewer.PanOffset (Get_Exect_corrdinate_By_Clicking.py:27-28): no
  contract of its own; its range is `PanRange` and its use is `UpdateView`.
- RoiMapper.MapRect (Atwo.py:83-89): no contract of its own. Its
  properties are `MapRectCoversColumns` and `MapRectCoversRows` (round trip),
  `MapRectByAxes` (each axis is one `UnscaleEdges`) and
  `ScenarioScaledSelection`.
- RoiMapper.ToOriginalRoi (Atwo.py:83-96): no contract of its own; it is
  `MapRect` followed by `ClampAndValidate`, whose contract carries the
  validation. `ProcessSelection` and both `Scenario` lemmas state it end to end.
- RoiMapper.FoundIn (Atwo.py:9-31): no contract; it names the detector's
  circles on the crop (none on `None`) so that `DetectAndDrawCircles` and
  `ProcessSelection` can state their results against it.
- RegionSelect.DetectCircles (A.py:7-20): a pass-through of the abstract
  detector (none on `None`). Its only content is that case split, so its
  promise to callers is carried by `ProcessRegion`.
- RegionSelect.ReadRegion (A.py:56-59): no contract of its own; its four
  fields are `FieldOrZero`'s.
- RegionSelect.SelectedRegion (A.py:64): no contract of its own; it is
  `Grid.Crop` with `top + height` and `left + width` as the far bounds. Its
  property is `SelectedRegionClipsAtEdges`.

## Findings

| source | as written | input that shows it | evidently intended | confidence | as-written member | corrected member |
|---|---|---|---|---|---|---|
| Get_Exect_corrdinate_By_Clicking.py:40-46 | when the pan moves the zoomed image past the canvas, x_start > x_end. For dx < 0 with canvas_x + resized_w + dx > 0, the destination end `max(dx,0) + (x_end - x_start)` is negative and counts from the canvas end, so a non-empty destination receives an empty source. Numpy then raises ValueError exactly when canvas_x + resized_w + dx >= 1; below that both slices are empty. In the mirror case dx > canvas_x (only on images under 100 pixels), the destination is empty and the source end `canvas_x - dx` is negative, so the source keeps max(0, canvas_x + resized_w - dx) pixels. Numpy raises only when that is at least 2: at 0 both slices are empty, and at 1 the one-pixel source broadcasts onto the empty destination | 500x500 image, zoom position 1 (zoomed image 50x50), pan X position 40 (dx = -60): source columns 60:50 are empty, destination columns 0:-10 are 490 wide. Mirror: 50-pixel-wide image, zoom position 30 (zoomed 150), pan X position 200 (dx = 100): source 0:-50 is 100 wide, destination 100:50 is empty | an empty overlay: the canvas stays white where the image does not reach | not executed; high for the slice arithmetic, medium for the exact numpy error | ClickViewer.OverlayAsWritten, ClickViewer.OverlayAsWrittenMismatch, ClickViewer.OverlayAsWrittenMirrorMismatch, ClickViewer.OverlayAsWrittenMirrorEmpty, ClickViewer.OverlayAsWrittenMirrorBroadcast | ClickViewer.Overlay, ClickViewer.Render |
