/** How real-valued positions are turned into pixel addresses of a `cv::Mat`:
    a `float` passed where an `int` index is expected is truncated toward
    zero, and a `cv::Point2f` passed where a `cv::Point` is expected is
    rounded to the nearest integer, ties to even (`cvRound`). */
module Quantise {
  import opened Geometry

  /** C++ `float` to `int` conversion: drop the fractional part. */
  function Trunc(v: real): (r: int)
    ensures 0.0 <= v ==> r as real <= v < r as real + 1.0
    ensures v <= 0.0 ==> r as real - 1.0 < v <= r as real
  {
    if v >= 0.0 then v.Floor else -((-v).Floor)
  }

  /** `cvRound`: the nearest integer, and the even one of the two on a tie. */
  function Round(v: real): (r: int)
    ensures -0.5 <= v - r as real <= 0.5
    ensures (v - r as real == 0.5 || v - r as real == -0.5) ==> r % 2 == 0
  {
    var f := v.Floor;
    var d := v - f as real;
    if d < 0.5 then f
    else if d > 0.5 then f + 1
    else if f % 2 == 0 then f
    else f + 1
  }

  /** An integer rounds to itself, a quarter past it rounds down to it, and
      three quarters past it rounds up to the next one. */
  lemma RoundQuarters(n: int)
    ensures Round(n as real) == n
    ensures Round(n as real + 0.25) == n
    ensures Round(n as real + 0.75) == n + 1
  {
  }

  /** Rounding a value that lies between two integers stays between them. */
  lemma RoundBetween(v: real, lo: int, hi: int)
    requires lo as real <= v <= hi as real
    ensures lo <= Round(v) <= hi
  {
  }

  /** A pixel address: `x` is the column and `y` the row, as in `cv::Point`. */
  datatype Cell = Cell(x: int, y: int)

  /** The address `at(p.y, p.x)` reaches: for a point with non-negative
      coordinates, the pixel whose unit square holds it. */
  function TruncCell(p: Point): (c: Cell)
    ensures 0.0 <= p.x ==> c.x as real <= p.x < c.x as real + 1.0
    ensures 0.0 <= p.y ==> c.y as real <= p.y < c.y as real + 1.0
  {
    Cell(Trunc(p.x), Trunc(p.y))
  }

  /** The address `at(cv::Point(p))` reaches: the pixel nearest to `p` on each axis. */
  function RoundCell(p: Point): (c: Cell)
    ensures -0.5 <= p.x - c.x as real <= 0.5
    ensures -0.5 <= p.y - c.y as real <= 0.5
  {
    Cell(Round(p.x), Round(p.y))
  }

  /** A point with whole-number coordinates, as the mouse handler records them. */
  predicate Integral(p: Point) {
    p.x == p.x.Floor as real && p.y == p.y.Floor as real
  }
}
