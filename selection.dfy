/**
 * The geometry of a mouse selection on the displayed bitmap: the
 * rectangle `performOCR` builds from the two selection points and the
 * crop box it hands to the image library. All coordinates are display
 * coordinates of the bitmap as shown; nothing is rescaled or clipped.
 */
module Selection {

  /** A `wx.Point`: an integer position on the image widget. */
  datatype Point = Point(x: int, y: int)

  /** A `wx.Rect`: top-left corner and extent. */
  datatype Rect = Rect(x: int, y: int, width: int, height: int)

  /** A crop box as the image library takes it: left, upper, right, lower. */
  datatype CropBox = CropBox(left: int, upper: int, right: int, lower: int)

  function Min(a: int, b: int): int { if a <= b then a else b }

  function Max(a: int, b: int): int { if a <= b then b else a }

  function Abs(a: int): int { if a < 0 then -a else a }

  /**
   * `wx.Rect(min(x1, x2), min(y1, y2), abs(x2 - x1), abs(y2 - y1))`: the
   * rectangle spanned by the two points, whichever corner each one is.
   */
  function SelectionRect(start: Point, end: Point): (r: Rect)
    ensures r.width >= 0 && r.height >= 0
    ensures (r.x == start.x && r.x + r.width == end.x) || (r.x == end.x && r.x + r.width == start.x)
    ensures (r.y == start.y && r.y + r.height == end.y) || (r.y == end.y && r.y + r.height == start.y)
  {
    Rect(Min(start.x, end.x), Min(start.y, end.y), Abs(end.x - start.x), Abs(end.y - start.y))
  }

  /** `(region.x, region.y, region.x + region.width, region.y + region.height)`. */
  function CropBoxOf(r: Rect): CropBox {
    CropBox(r.x, r.y, r.x + r.width, r.y + r.height)
  }

  /** The crop box of a selection, in the bitmap's own (display) coordinates. */
  function SelectionCropBox(start: Point, end: Point): (box: CropBox)
    ensures box.left <= box.right && box.upper <= box.lower
  {
    CropBoxOf(SelectionRect(start, end))
  }

  /**
   * The crop box is the componentwise minimum and maximum of the two
   * points: no scale factor and no clipping to the bitmap is applied.
   */
  lemma CropBoxCorners(start: Point, end: Point)
    ensures SelectionCropBox(start, end)
         == CropBox(Min(start.x, end.x), Min(start.y, end.y),
                    Max(start.x, end.x), Max(start.y, end.y))
  {
  }

  /** Dragging from either corner selects the same region. */
  lemma SelectionSymmetric(start: Point, end: Point)
    ensures SelectionRect(start, end) == SelectionRect(end, start)
  {
  }

  /** Both points lie on the boundary of the box, so it contains them. */
  lemma CropBoxContainsPoints(start: Point, end: Point)
    ensures var box := SelectionCropBox(start, end);
      && box.left <= start.x <= box.right && box.upper <= start.y <= box.lower
      && box.left <= end.x <= box.right && box.upper <= end.y <= box.lower
  {
  }

  /** The box is empty in some direction exactly when the points share that coordinate. */
  lemma CropBoxDegenerate(start: Point, end: Point)
    ensures var box := SelectionCropBox(start, end);
      && (box.left == box.right <==> start.x == end.x)
      && (box.upper == box.lower <==> start.y == end.y)
  {
  }
}
