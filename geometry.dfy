/**
 * Screen geometry of the desktop surface: integer points, sizes and the container
 * rectangle that `getBoundingClientRect()` reports, and the clamp that keeps a dropped
 * desktop icon inside that rectangle.
 */
module Geometry {

  datatype Point = Point(x: int, y: int)

  datatype Size = Size(width: int, height: int)

  /** The `{left, top, width, height}` part of a DOMRect. */
  datatype Rect = Rect(left: int, top: int, width: int, height: int)

  /** The footprint assumed for a desktop icon when clamping (both axes). */
  const IconFootprint: int := 96

  function Min(a: int, b: int): int { if a <= b then a else b }

  function Max(a: int, b: int): int { if a >= b then a else b }

  /** One axis of the clamp: `v` capped at `limit`, then raised to at least 0. */
  function ClampAxis(v: int, limit: int): (r: int)
    ensures r >= 0
    ensures limit >= 0 ==> r <= limit
    ensures 0 <= v <= limit ==> r == v
    ensures 0 <= limit < v ==> r == limit
    ensures v < 0 || limit < 0 ==> r == 0
  {
    Max(0, Min(v, limit))
  }

  /** Translates a viewport point into the coordinates of the container `rect`. */
  function ToContainer(p: Point, rect: Rect): (r: Point)
    ensures r.x + rect.left == p.x && r.y + rect.top == p.y
  {
    Point(p.x - rect.left, p.y - rect.top)
  }

  /**
   * Where an icon dropped at viewport point `p` lands in the container `rect`: translated
   * into container coordinates, then clamped so that an icon footprint fits when it can.
   */
  function DropPosition(p: Point, rect: Rect): (r: Point)
    ensures r.x >= 0 && r.y >= 0
    ensures rect.width >= IconFootprint ==> r.x <= rect.width - IconFootprint
    ensures rect.height >= IconFootprint ==> r.y <= rect.height - IconFootprint
    ensures rect.width < IconFootprint ==> r.x == 0
    ensures rect.height < IconFootprint ==> r.y == 0
    ensures rect.left <= p.x <= rect.left + rect.width - IconFootprint ==> r.x == p.x - rect.left
    ensures rect.top <= p.y <= rect.top + rect.height - IconFootprint ==> r.y == p.y - rect.top
    ensures p.x < rect.left ==> r.x == 0
    ensures p.y < rect.top ==> r.y == 0
    ensures rect.width >= IconFootprint && p.x > rect.left + rect.width - IconFootprint ==> r.x == rect.width - IconFootprint
    ensures rect.height >= IconFootprint && p.y > rect.top + rect.height - IconFootprint ==> r.y == rect.height - IconFootprint
  {
    var rel := ToContainer(p, rect);
    Point(ClampAxis(rel.x, rect.width - IconFootprint), ClampAxis(rel.y, rect.height - IconFootprint))
  }

  /** A 400x300 container at the origin: a drop at (-50, 500) lands at (0, 204). */
  lemma DropPositionExample()
    ensures DropPosition(Point(-50, 500), Rect(0, 0, 400, 300)) == Point(0, 204)
  {
  }

  /** Dropping where the icon already fits, in container terms, keeps that spot. */
  lemma DropPositionKeepsFittingPoint(p: Point, rect: Rect)
    requires 0 <= p.x - rect.left <= rect.width - IconFootprint
    requires 0 <= p.y - rect.top <= rect.height - IconFootprint
    ensures DropPosition(p, rect) == ToContainer(p, rect)
  {
  }
}
