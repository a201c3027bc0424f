/** Plane geometry over idealised coordinates: the `cv::Point2f` of the
    renderer with its `float` components taken as exact reals. */
module Geometry {

  /** A point in pixel space: `x` is the column, `y` the row. */
  datatype Point = Point(x: real, y: real)

  /** Componentwise sum, `p + q` on `cv::Point2f`. */
  function Add(p: Point, q: Point): Point {
    Point(p.x + q.x, p.y + q.y)
  }

  /** Scalar multiple, `s * p` on `cv::Point2f`. */
  function Scale(s: real, p: Point): Point {
    Point(s * p.x, s * p.y)
  }

  function MinReal(a: real, b: real): real { if a <= b then a else b }
  function MaxReal(a: real, b: real): real { if a <= b then b else a }

  /** Linear interpolation `(1 - t) * p + t * q`: it starts at `p` and ends at `q`. */
  function Lerp(p: Point, q: Point, t: real): (r: Point)
    ensures t == 0.0 ==> r == p
    ensures t == 1.0 ==> r == q
  {
    Add(Scale(1.0 - t, p), Scale(t, q))
  }

  /** Linear interpolation of one coordinate. */
  function Mix(u: real, v: real, t: real): real {
    (1.0 - t) * u + t * v
  }

  /** Interpolating points interpolates each coordinate. */
  lemma LerpCoordinates(p: Point, q: Point, t: real)
    ensures Lerp(p, q, t) == Point(Mix(p.x, q.x, t), Mix(p.y, q.y, t))
  {
  }

  /** For `t` in [0, 1] an interpolated point lies between its two ends on each axis. */
  lemma LerpBetween(p: Point, q: Point, t: real)
    requires 0.0 <= t <= 1.0
    ensures MinReal(p.x, q.x) <= Lerp(p, q, t).x <= MaxReal(p.x, q.x)
    ensures MinReal(p.y, q.y) <= Lerp(p, q, t).y <= MaxReal(p.y, q.y)
  {
    assert Lerp(p, q, t).x == p.x + t * (q.x - p.x);
    assert Lerp(p, q, t).y == p.y + t * (q.y - p.y);
  }

  /** An axis-aligned rectangle with inclusive bounds. */
  datatype Box = Box(xmin: real, ymin: real, xmax: real, ymax: real) {
    predicate Encloses(p: Point) {
      xmin <= p.x <= xmax && ymin <= p.y <= ymax
    }
  }

  /** The least element of a non-empty sequence, as `std::min_element` finds it. */
  function Min(xs: seq<real>): (m: real)
    requires |xs| > 0
    ensures m in xs
    ensures forall v :: v in xs ==> m <= v
  {
    assert xs == [xs[0]] + xs[1..];
    if |xs| == 1 then xs[0] else MinReal(xs[0], Min(xs[1..]))
  }

  /** The greatest element of a non-empty sequence, as `std::max_element` finds it. */
  function Max(xs: seq<real>): (m: real)
    requires |xs| > 0
    ensures m in xs
    ensures forall v :: v in xs ==> v <= m
  {
    assert xs == [xs[0]] + xs[1..];
    if |xs| == 1 then xs[0] else MaxReal(xs[0], Max(xs[1..]))
  }

  /** Extents of the first four control points: the tightest box holding all
      four, each of whose sides passes through one of them. */
  function BoundingBox(cp: seq<Point>): (b: Box)
    requires |cp| >= 4
    ensures forall i :: 0 <= i < 4 ==> b.Encloses(cp[i])
    ensures exists i :: 0 <= i < 4 && cp[i].x == b.xmin
    ensures exists i :: 0 <= i < 4 && cp[i].x == b.xmax
    ensures exists i :: 0 <= i < 4 && cp[i].y == b.ymin
    ensures exists i :: 0 <= i < 4 && cp[i].y == b.ymax
  {
    var xs := [cp[0].x, cp[1].x, cp[2].x, cp[3].x];
    var ys := [cp[0].y, cp[1].y, cp[2].y, cp[3].y];
    assert forall i :: 0 <= i < 4 ==> cp[i].x == xs[i] && xs[i] in xs;
    assert forall i :: 0 <= i < 4 ==> cp[i].y == ys[i] && ys[i] in ys;
    Box(Min(xs), Min(ys), Max(xs), Max(ys))
  }
}
