/**
 Points, rectangles and the two units of the program: millimetres (the letter
 specification) and points (PDF). Coordinates are exact reals.
 */
module Geometry {

  datatype Point = Point(x: real, y: real)

  function Min(a: real, b: real): real { if a <= b then a else b }

  function Max(a: real, b: real): real { if a <= b then b else a }

  function Abs(a: real): real { if a < 0.0 then -a else a }

  /** reportlab's `mm` unit: the number of points in the given millimetres. */
  function ToPoints(mm: real): real { mm * 72.0 / 25.4 }

  function ToMm(points: real): real { points * 25.4 / 72.0 }

  /** A rectangle given by its corners; as a set of points it is half-open, so that tiles do not overlap. */
  datatype Rect = Rect(x0: real, y0: real, x1: real, y1: real) {

    predicate Contains(p: Point) {
      x0 <= p.x < x1 && y0 <= p.y < y1
    }

    predicate IsEmpty() {
      x1 <= x0 || y1 <= y0
    }

    /** pymupdf's Rect.intersects: both are non-empty and so is their intersection. */
    predicate Intersects(other: Rect) {
      && !IsEmpty() && !other.IsEmpty()
      && Max(x0, other.x0) < Min(x1, other.x1)
      && Max(y0, other.y0) < Min(y1, other.y1)
    }

    predicate Inside(outer: Rect) {
      outer.x0 <= x0 && x1 <= outer.x1 && outer.y0 <= y0 && y1 <= outer.y1
    }

    function Grow(d: real): Rect {
      Rect(x0 - d, y0 - d, x1 + d, y1 + d)
    }

    function InPoints(): Rect {
      Rect(ToPoints(x0), ToPoints(y0), ToPoints(x1), ToPoints(y1))
    }
  }

  /** The rectangle with the two given opposite corners, whichever way round they are given. */
  function Spanning(pt1: Point, pt2: Point): Rect {
    Rect(Min(pt1.x, pt2.x), Min(pt1.y, pt2.y), Max(pt1.x, pt2.x), Max(pt1.y, pt2.y))
  }

  /** Chebyshev distance. */
  function Distance(p: Point, q: Point): real {
    Max(Abs(p.x - q.x), Abs(p.y - q.y))
  }

  /** Some point of the rectangle lies within distance d of p. */
  ghost predicate Near(r: Rect, d: real, p: Point) {
    exists q: Point :: r.Contains(q) && Distance(p, q) <= d
  }

  /** Growing a non-empty rectangle by d adds exactly the points within Chebyshev distance d of it. */
  lemma GrowIsNear(r: Rect, d: real, p: Point)
    requires !r.IsEmpty() && d >= 0.0
    ensures r.Grow(d).Contains(p) <==> Near(r, d, p)
  {
    if r.Grow(d).Contains(p) {
      var q := Point(Nearest(r.x0, r.x1, p.x, d), Nearest(r.y0, r.y1, p.y, d));
      assert r.Contains(q) && Distance(p, q) <= d;
    }
  }

  /** An inch is 72 points and 25.4 millimetres. */
  lemma UnitsAre(inches: real)
    ensures ToPoints(inches * 25.4) == inches * 72.0 && ToMm(inches * 72.0) == inches * 25.4
  {
  }

  /** Rectangles intersect exactly when neither is empty and they have a point in common. */
  lemma IntersectsIff(a: Rect, b: Rect)
    ensures a.Intersects(b) <==> !a.IsEmpty() && !b.IsEmpty() && exists p: Point :: a.Contains(p) && b.Contains(p)
  {
    if a.Intersects(b) {
      var p := Point(Max(a.x0, b.x0), Max(a.y0, b.y0));
      assert a.Contains(p) && b.Contains(p);
    }
  }

  /** A value of [lo, hi) within d of v. */
  function Nearest(lo: real, hi: real, v: real, d: real): (r: real)
    requires lo < hi && d >= 0.0 && lo - d <= v < hi + d
    ensures lo <= r < hi && Abs(v - r) <= d
  {
    if v < hi then Max(lo, v) else Max(lo, v - d)
  }
}
