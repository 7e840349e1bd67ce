/**
 * os/window.cpp: the platform-independent part of os::Window.
 *
 * The window's width, height, scale and content rectangle are inputs.
 * gfx::Point's `*=` and `/=` by an int work component-wise, the division
 * truncating toward zero as in C++.
 */
module Window {
  import opened Geometry

  /** Whether a rectangle covers a point. */
  predicate Covers(r: Rect, p: Point)
  {
    r.x <= p.x < r.X2() && r.y <= p.y < r.Y2()
  }

  /** bounds: the client area, at the origin. */
  function Bounds(width: int, height: int): (r: Rect)
    ensures r.Origin() == Point(0, 0) && r.w == width && r.h == height
  {
    Rect(0, 0, width, height)
  }

  /** invalidate: the region handed to invalidateRegion is the whole client area. */
  function Invalidated(width: int, height: int): (r: Rect)
    ensures forall p: Point :: Covers(r, p) <==> 0 <= p.x < width && 0 <= p.y < height
  {
    Bounds(width, height)
  }

  /** pointToScreen: scaled, then moved by the content rectangle's origin. */
  function PointToScreen(p: Point, scale: int, content: Rect): (q: Point)
    ensures q.x - content.x == p.x * scale && q.y - content.y == p.y * scale
  {
    Point(p.x * scale + content.x, p.y * scale + content.y)
  }

  /** pointFromScreen: moved back by the content rectangle's origin, then divided by the scale. */
  function PointFromScreen(q: Point, scale: int, content: Rect): (p: Point)
    requires scale != 0
    ensures q.x >= content.x && scale > 0 ==> p.x * scale <= q.x - content.x < (p.x + 1) * scale
    ensures q.y >= content.y && scale > 0 ==> p.y * scale <= q.y - content.y < (p.y + 1) * scale
  {
    Point(TruncDiv(q.x - content.x, scale), TruncDiv(q.y - content.y, scale))
  }

  /** A client point taken to the screen and back is the same point, for any non-zero scale. */
  lemma FromScreenAfterToScreen(p: Point, scale: int, content: Rect)
    requires scale != 0
    ensures PointFromScreen(PointToScreen(p, scale, content), scale, content) == p
  {
    var q := PointToScreen(p, scale, content);
    assert q.x - content.x == p.x * scale;
    assert q.y - content.y == p.y * scale;
    TruncDivOfMultiple(p.x, scale);
    TruncDivOfMultiple(p.y, scale);
  }

  /**
   * The other way round loses the screen pixels inside one scaled pixel:
   * at scale 2 the screen point (1, 0) comes back as (0, 0).
   */
  lemma ToScreenAfterFromScreenLoses()
    ensures PointToScreen(PointFromScreen(Point(1, 0), 2, Rect(0, 0, 10, 10)), 2, Rect(0, 0, 10, 10)) == Point(0, 0)
  {
    assert TruncDiv(1, 2) == 0;
    assert TruncDiv(0, 2) == 0;
  }

  /** A screen point taken to the client and back lands on the first screen pixel of its scaled pixel, never after it. */
  lemma ToScreenAfterFromScreen(q: Point, scale: int, content: Rect)
    requires scale > 0 && q.x >= content.x && q.y >= content.y
    ensures var r := PointToScreen(PointFromScreen(q, scale, content), scale, content);
            r.x <= q.x < r.x + scale && r.y <= q.y < r.y + scale
  {
    var p := PointFromScreen(q, scale, content);
    assert (p.x + 1) * scale == p.x * scale + scale;
    assert (p.y + 1) * scale == p.y * scale + scale;
  }
}
