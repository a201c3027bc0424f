/** Curve evaluation: de Casteljau's recursive subdivision (`recursive_bezier`)
    and the closed-form Bernstein polynomial of the cubic (`naive_bezier`). */
module Bezier {
  import opened Geometry

  /** One round of de Casteljau: the `n - 1` points interpolated between
      neighbouring control points, in order. */
  function Reduce(ps: seq<Point>, t: real): (r: seq<Point>)
    requires |ps| >= 1
    ensures |r| == |ps| - 1
    ensures forall i :: 0 <= i < |r| ==> r[i] == Lerp(ps[i], ps[i + 1], t)
  {
    if |ps| == 1 then [] else [Lerp(ps[0], ps[1], t)] + Reduce(ps[1..], t)
  }

  /** The curve point at `t`: reduce until one point is left. */
  function DeCasteljau(ps: seq<Point>, t: real): Point
    requires |ps| >= 1
    decreases |ps|
  {
    if |ps| == 1 then ps[0] else DeCasteljau(Reduce(ps, t), t)
  }

  /** The control-point sequences the recursion is called on, outermost first:
      there are exactly `|ps|` of them, each one shorter than the one before
      and obtained from it by one round of interpolation, and the last is the
      single curve point. So the recursion stops after `|ps| - 1` steps. */
  function Levels(ps: seq<Point>, t: real): (r: seq<seq<Point>>)
    requires |ps| >= 1
    ensures |r| == |ps|
    ensures r[0] == ps
    ensures forall k :: 0 <= k < |r| ==> |r[k]| == |ps| - k
    ensures forall k :: 0 <= k < |r| - 1 ==> |r[k]| >= 1 && r[k + 1] == Reduce(r[k], t)
    ensures r[|ps| - 1] == [DeCasteljau(ps, t)]
    decreases |ps|
  {
    if |ps| == 1 then [ps] else [ps] + Levels(Reduce(ps, t), t)
  }

  /** A one-point input is its own curve point, whatever `t`. */
  lemma SinglePoint(p: Point, t: real)
    ensures DeCasteljau([p], t) == p
  {
  }

  /** The curve starts at the first control point. */
  lemma {:induction false} StartsAtFirst(ps: seq<Point>)
    requires |ps| >= 1
    ensures DeCasteljau(ps, 0.0) == ps[0]
    decreases |ps|
  {
    if |ps| > 1 {
      var next := Reduce(ps, 0.0);
      assert next[0] == ps[0];
      StartsAtFirst(next);
    }
  }

  /** The curve ends at the last control point. */
  lemma {:induction false} EndsAtLast(ps: seq<Point>)
    requires |ps| >= 1
    ensures DeCasteljau(ps, 1.0) == ps[|ps| - 1]
    decreases |ps|
  {
    if |ps| > 1 {
      var next := Reduce(ps, 1.0);
      assert next[|next| - 1] == ps[|ps| - 1];
      EndsAtLast(next);
    }
  }

  /** Convex-hull property on each axis: for `t` in [0, 1] every curve point
      lies in any axis-aligned box that holds all control points. */
  lemma {:induction false} StaysInBox(ps: seq<Point>, t: real, b: Box)
    requires |ps| >= 1
    requires 0.0 <= t <= 1.0
    requires forall i :: 0 <= i < |ps| ==> b.Encloses(ps[i])
    ensures b.Encloses(DeCasteljau(ps, t))
    decreases |ps|
  {
    if |ps| > 1 {
      var next := Reduce(ps, t);
      forall i | 0 <= i < |next| ensures b.Encloses(next[i]) {
        assert next[i] == Lerp(ps[i], ps[i + 1], t);
        assert b.Encloses(ps[i]) && b.Encloses(ps[i + 1]);
        LerpBetween(ps[i], ps[i + 1], t);
      }
      StaysInBox(next, t, b);
    }
  }

  /** `std::pow(x, 2)` and `std::pow(x, 3)`. */
  function Square(x: real): real { x * x }
  function Cube(x: real): real { x * x * x }

  /** The closed form of the cubic over the first four control points,
      `(1-t)^3 P0 + 3t(1-t)^2 P1 + 3t^2(1-t) P2 + t^3 P3`, summed left to right. */
  function Bernstein(cp: seq<Point>, t: real): Point
    requires |cp| >= 4
  {
    Add(Add(Add(Scale(Cube(1.0 - t), cp[0]),
                Scale(3.0 * t * Square(1.0 - t), cp[1])),
            Scale(3.0 * Square(t) * (1.0 - t), cp[2])),
        Scale(Cube(t), cp[3]))
  }

  /** The Bernstein sum of four numbers. */
  function BernsteinSum(a: real, b: real, c: real, d: real, t: real): real {
    Cube(1.0 - t) * a + 3.0 * t * Square(1.0 - t) * b + 3.0 * Square(t) * (1.0 - t) * c + Cube(t) * d
  }

  /** The closed form, coordinate by coordinate. */
  lemma BernsteinCoordinates(cp: seq<Point>, t: real)
    requires |cp| >= 4
    ensures Bernstein(cp, t) == Point(BernsteinSum(cp[0].x, cp[1].x, cp[2].x, cp[3].x, t),
                                      BernsteinSum(cp[0].y, cp[1].y, cp[2].y, cp[3].y, t))
  {
  }

  /** Two nested interpolations of three numbers equal their quadratic Bernstein sum. */
  lemma QuadraticCoordinate(a: real, b: real, c: real, t: real)
    ensures Mix(Mix(a, b, t), Mix(b, c, t), t) == Square(1.0 - t) * a + 2.0 * t * (1.0 - t) * b + Square(t) * c
  {
  }

  /** Three nested interpolations of four numbers equal their Bernstein sum. */
  lemma CubicCoordinate(a: real, b: real, c: real, d: real, t: real)
    ensures Mix(Mix(Mix(a, b, t), Mix(b, c, t), t), Mix(Mix(b, c, t), Mix(c, d, t), t), t)
         == BernsteinSum(a, b, c, d, t)
  {
    QuadraticCoordinate(a, b, c, t);
    QuadraticCoordinate(b, c, d, t);
  }

  /** The same identity on points: three rounds of interpolation of four
      points give the Bernstein combination of them. */
  lemma CubicPoint(p0: Point, p1: Point, p2: Point, p3: Point, t: real)
    ensures Lerp(Lerp(Lerp(p0, p1, t), Lerp(p1, p2, t), t), Lerp(Lerp(p1, p2, t), Lerp(p2, p3, t), t), t)
         == Bernstein([p0, p1, p2, p3], t)
  {
    var ab, bc, cd := Lerp(p0, p1, t), Lerp(p1, p2, t), Lerp(p2, p3, t);
    var abc, bcd := Lerp(ab, bc, t), Lerp(bc, cd, t);
    LerpCoordinates(p0, p1, t);
    LerpCoordinates(p1, p2, t);
    LerpCoordinates(p2, p3, t);
    LerpCoordinates(ab, bc, t);
    LerpCoordinates(bc, cd, t);
    LerpCoordinates(abc, bcd, t);
    CubicCoordinate(p0.x, p1.x, p2.x, p3.x, t);
    CubicCoordinate(p0.y, p1.y, p2.y, p3.y, t);
    BernsteinCoordinates([p0, p1, p2, p3], t);
  }

  /** For four control points the two evaluators agree at every `t`. */
  lemma DeCasteljauIsBernstein(cp: seq<Point>, t: real)
    requires |cp| == 4
    ensures DeCasteljau(cp, t) == Bernstein(cp, t)
  {
    var l1 := Reduce(cp, t);
    var l2 := Reduce(l1, t);
    var l3 := Reduce(l2, t);
    assert DeCasteljau(cp, t) == DeCasteljau(l1, t) == DeCasteljau(l2, t) == DeCasteljau(l3, t) == l3[0];
    assert l1 == [Lerp(cp[0], cp[1], t), Lerp(cp[1], cp[2], t), Lerp(cp[2], cp[3], t)];
    assert l2 == [Lerp(l1[0], l1[1], t), Lerp(l1[1], l1[2], t)];
    assert l3[0] == Lerp(l2[0], l2[1], t);
    assert cp == [cp[0], cp[1], cp[2], cp[3]];
    CubicPoint(cp[0], cp[1], cp[2], cp[3], t);
  }

  /** `recursive_bezier`: one round of interpolation built by a loop, then a
      recursive call on the shorter sequence. */
  method RecursiveBezier(cp: seq<Point>, t: real) returns (p: Point)
    requires |cp| >= 1
    ensures p == DeCasteljau(cp, t)
    decreases |cp|
  {
    if |cp| == 1 {
      return cp[0];
    }
    var next: seq<Point> := [];
    var i := 0;
    while i < |cp| - 1
      invariant 0 <= i <= |cp| - 1
      invariant |next| == i
      invariant forall k :: 0 <= k < i ==> next[k] == Lerp(cp[k], cp[k + 1], t)
    {
      next := next + [Lerp(cp[i], cp[i + 1], t)];
      i := i + 1;
    }
    var reduced := Reduce(cp, t);
    assert |next| == |reduced|;
    forall k | 0 <= k < |next| ensures next[k] == reduced[k] {
      assert next[k] == Lerp(cp[k], cp[k + 1], t);
    }
    assert next == reduced;
    p := RecursiveBezier(next, t);
  }
}
