/**
 * Integer geometry shared by the text and window code: points, sizes and
 * rectangles, with the union and emptiness rules of gfx::Rect, and the
 * C++ integer division (truncation toward zero) that the sources use when
 * they divide coordinates by a scale factor.
 *
 * gfx/rect.h is not part of this model: `IsEmpty` (w < 1 or h < 1) and
 * `Union` (an empty operand yields the other one) follow that class's
 * documented behaviour.  Floating-point PointF/RectF values of the sources
 * are modelled by these integer types.
 */
module Geometry {

  datatype Point = Point(x: int, y: int)

  datatype Size = Size(w: int, h: int)

  datatype Rect = Rect(x: int, y: int, w: int, h: int) {

    /** gfx::Rect::isEmpty */
    predicate IsEmpty()
    {
      w < 1 || h < 1
    }

    function X2(): int { x + w }

    function Y2(): int { y + h }

    function Origin(): Point { Point(x, y) }

    /** gfx::Rect::offset: moves the rectangle, keeping its size. */
    function Offset(dx: int, dy: int): (r: Rect)
      ensures r.w == w && r.h == h && r.x - x == dx && r.y - y == dy
    {
      Rect(x + dx, y + dy, w, h)
    }
  }

  /** A default-constructed gfx::Rect. */
  const EmptyRect: Rect := Rect(0, 0, 0, 0)

  function Min(a: int, b: int): int { if a <= b then a else b }

  function Max(a: int, b: int): int { if a >= b then a else b }

  /** gfx::Rect::operator| : the smallest rectangle holding both, where an empty operand is ignored. */
  function Union(a: Rect, b: Rect): (r: Rect)
    ensures a.IsEmpty() ==> r == b
    ensures !a.IsEmpty() && b.IsEmpty() ==> r == a
    ensures !a.IsEmpty() && !b.IsEmpty() ==>
      !r.IsEmpty() &&
      r.x <= a.x && r.x <= b.x && r.y <= a.y && r.y <= b.y &&
      a.X2() <= r.X2() && b.X2() <= r.X2() && a.Y2() <= r.Y2() && b.Y2() <= r.Y2()
  {
    if a.IsEmpty() then b
    else if b.IsEmpty() then a
    else
      var x1 := Min(a.x, b.x);
      var y1 := Min(a.y, b.y);
      Rect(x1, y1, Max(a.X2(), b.X2()) - x1, Max(a.Y2(), b.Y2()) - y1)
  }

  /** `inner` lies within `outer`. */
  predicate Within(inner: Rect, outer: Rect)
  {
    outer.x <= inner.x && outer.y <= inner.y && inner.X2() <= outer.X2() && inner.Y2() <= outer.Y2()
  }

  /** `a |= b` keeps every non-empty box that was inside `a`, and takes in `b` unless it is empty. */
  lemma UnionWithin(a: Rect, b: Rect, inner: Rect)
    ensures !b.IsEmpty() ==> Within(b, Union(a, b))
    ensures !inner.IsEmpty() && Within(inner, a) ==> Within(inner, Union(a, b))
  {
  }

  /** C++ `a / b` on int: the quotient truncated toward zero. */
  function TruncDiv(a: int, b: int): (q: int)
    requires b != 0
    ensures a >= 0 && b > 0 ==> q == a / b
    ensures a >= 0 ==> 0 <= a - q * b < (if b > 0 then b else -b)
    ensures a < 0 ==> -(if b > 0 then b else -b) < a - q * b <= 0
  {
    if a >= 0 then
      (if b > 0 then a / b else -(a / -b))
    else
      (if b > 0 then -((-a) / b) else (-a) / (-b))
  }

  lemma MulAwayFromZero(k: int, s: int)
    requires s > 0
    ensures k >= 1 ==> k * s >= s
    ensures k <= -1 ==> k * s <= -s
  {
  }

  lemma DivOfMultiple(p: nat, s: int)
    requires s > 0
    ensures (p * s) / s == p
  {
    var q := (p * s) / s;
    var r := (p * s) % s;
    assert p * s == q * s + r && 0 <= r < s;
    assert (p - q) * s == p * s - q * s;
    MulAwayFromZero(p - q, s);
  }

  /** Dividing an exact multiple recovers the factor, whatever the signs. */
  lemma TruncDivOfMultiple(p: int, s: int)
    requires s != 0
    ensures TruncDiv(p * s, s) == p
  {
    if p >= 0 && s > 0 {
      DivOfMultiple(p, s);
    } else if p >= 0 {
      assert p * s == -(p * -s) && p * -s >= 0;
      DivOfMultiple(p, -s);
      if p > 0 {
        assert p * s < 0;
      }
    } else if s > 0 {
      assert p * s == -(-p * s) && -p * s > 0;
      DivOfMultiple(-p, s);
    } else {
      assert p * s == -p * -s && -p * -s > 0;
      DivOfMultiple(-p, -s);
    }
  }

  /** std::max(1, v), used for every surface dimension. */
  function AtLeastOne(v: int): (r: int)
    ensures r >= 1 && r >= v && (v >= 1 ==> r == v)
  {
    if v >= 1 then v else 1
  }
}
