/** Exact-real model of the two Qt value types the plugin computes with:
    QPointF and QRectF. A rectangle is kept as its four edges; over exact
    reals this is the same information as Qt's (x, y, width, height). */
module Geometry {

  datatype Point = Point(x: real, y: real)

  /** QRectF seen through left(), top(), right(), bottom(). Width and height
      may be negative: Qt does not normalize a rectangle unless asked. */
  datatype Rect = Rect(left: real, top: real, right: real, bottom: real)

  datatype Edge = LeftEdge | TopEdge | RightEdge | BottomEdge

  function Add(p: Point, q: Point): Point { Point(p.x + q.x, p.y + q.y) }

  function Sub(p: Point, q: Point): (d: Point)
    ensures Add(q, d) == p
  {
    Point(p.x - q.x, p.y - q.y)
  }

  function Width(r: Rect): real { r.right - r.left }

  function Height(r: Rect): real { r.bottom - r.top }

  function EdgeOf(r: Rect, e: Edge): real {
    match e
    case LeftEdge => r.left
    case TopEdge => r.top
    case RightEdge => r.right
    case BottomEdge => r.bottom
  }

  /** The component of a displacement that moves edge e. */
  function Component(d: Point, e: Edge): real {
    if e == LeftEdge || e == RightEdge then d.x else d.y
  }

  /** QRectF::translated: both edges of each axis shift, the size is kept. */
  function Translated(r: Rect, p: Point): Rect {
    Rect(r.left + p.x, r.top + p.y, r.right + p.x, r.bottom + p.y)
  }

  predicate IsNormal(r: Rect) { r.left <= r.right && r.top <= r.bottom }

  function Min(a: real, b: real): real { if a <= b then a else b }

  function Max(a: real, b: real): real { if a <= b then b else a }

  /** QRectF::normalized: swaps the edges of an axis whose size is negative.
      The result is ordered and holds the same pair of coordinates on each
      axis; an already ordered rectangle is returned unchanged. */
  function Normalized(r: Rect): (n: Rect)
    ensures IsNormal(n)
    ensures (n.left == r.left && n.right == r.right) || (n.left == r.right && n.right == r.left)
    ensures (n.top == r.top && n.bottom == r.bottom) || (n.top == r.bottom && n.bottom == r.top)
    ensures IsNormal(r) ==> n == r
  {
    Rect(Min(r.left, r.right), Min(r.top, r.bottom), Max(r.left, r.right), Max(r.top, r.bottom))
  }

  /** QRectF::contains(QPointF): the closed rectangle spanned by the edges in
      either order, except that a rectangle of zero width or zero height
      contains no point at all. */
  predicate Contains(r: Rect, p: Point) {
    r.left != r.right && r.top != r.bottom &&
    Min(r.left, r.right) <= p.x <= Max(r.left, r.right) &&
    Min(r.top, r.bottom) <= p.y <= Max(r.top, r.bottom)
  }

  /** p lies in r, edges included (r ordered). */
  predicate ClosedContains(r: Rect, p: Point) {
    r.left <= p.x <= r.right && r.top <= p.y <= r.bottom
  }

  /** r lies within the closed area of the (ordered) rectangle outer. */
  predicate Inside(r: Rect, outer: Rect) {
    outer.left <= r.left && r.right <= outer.right &&
    outer.top <= r.top && r.bottom <= outer.bottom
  }
}
