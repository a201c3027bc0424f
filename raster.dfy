/** The window the curve is drawn into and the three drawing passes over it:
    `naive_bezier`, `bezier` and `antialiasing` with its per-pixel `color`. */
module Raster {
  import opened Geometry
  import opened Bezier
  import opened Quantise
  import opened Pixels

  /** How far the filter sweep reaches beyond the control points' extents. */
  const Pad: int := 6

  /** An ideal parameter sweep `0, 1/n, 2/n, ..., 1`: it starts at 0, ends
      at 1, increases and never leaves [0, 1]. */
  function UniformSamples(n: nat): (ts: seq<real>)
    requires n > 0
    ensures |ts| == n + 1
    ensures ts[0] == 0.0 && ts[n] == 1.0
    ensures forall k :: 0 <= k < |ts| ==> 0.0 <= ts[k] <= 1.0
    ensures forall k :: 0 < k < |ts| ==> ts[k - 1] < ts[k]
  {
    var ts := seq(n + 1, k requires 0 <= k <= n => k as real / n as real);
    forall k | 0 <= k < |ts| ensures 0.0 <= ts[k] <= 1.0 && (0 < k ==> ts[k - 1] < ts[k]) {
      FractionFacts(k, n);
    }
    FractionFacts(0, n);
    FractionFacts(n, n);
    ts
  }

  /** `k / n` for `0 <= k <= n` lies in [0, 1], is 0 at 0 and 1 at `n`, and grows with `k`. */
  lemma FractionFacts(k: nat, n: nat)
    requires 0 < n && k <= n
    ensures 0.0 <= k as real / n as real <= 1.0
    ensures k == 0 ==> k as real / n as real == 0.0
    ensures k == n ==> k as real / n as real == 1.0
    ensures 0 < k ==> (k - 1) as real / n as real < k as real / n as real
  {
  }

  /** The pixels `naive_bezier` marks: the closed form at each `t`, truncated. */
  function NaivePath(cp: seq<Point>, ts: seq<real>): seq<Cell>
    requires |cp| >= 4
  {
    seq(|ts|, k requires 0 <= k < |ts| => TruncCell(Bernstein(cp, ts[k])))
  }

  /** The pixels `bezier` marks: de Casteljau at each `t`, rounded. */
  function CurvePath(cp: seq<Point>, ts: seq<real>): seq<Cell>
    requires |cp| >= 1
  {
    seq(|ts|, k requires 0 <= k < |ts| => RoundCell(DeCasteljau(cp, ts[k])))
  }

  /** A sweep that reaches both ends of [0, 1] marks the pixels of the first
      and of the last control point. */
  lemma CurvePathHitsEnds(cp: seq<Point>, ts: seq<real>)
    requires |cp| >= 1
    requires 0.0 in ts && 1.0 in ts
    ensures RoundCell(cp[0]) in CurvePath(cp, ts)
    ensures RoundCell(cp[|cp| - 1]) in CurvePath(cp, ts)
  {
    var i :| 0 <= i < |ts| && ts[i] == 0.0;
    var j :| 0 <= j < |ts| && ts[j] == 1.0;
    StartsAtFirst(cp);
    EndsAtLast(cp);
    assert CurvePath(cp, ts)[i] == RoundCell(cp[0]);
    assert CurvePath(cp, ts)[j] == RoundCell(cp[|cp| - 1]);
  }

  /** The same for the closed-form pass over four control points. */
  lemma NaivePathHitsEnds(cp: seq<Point>, ts: seq<real>)
    requires |cp| == 4
    requires 0.0 in ts && 1.0 in ts
    ensures TruncCell(cp[0]) in NaivePath(cp, ts)
    ensures TruncCell(cp[3]) in NaivePath(cp, ts)
  {
    var i :| 0 <= i < |ts| && ts[i] == 0.0;
    var j :| 0 <= j < |ts| && ts[j] == 1.0;
    StartsAtFirst(cp);
    EndsAtLast(cp);
    DeCasteljauIsBernstein(cp, 0.0);
    DeCasteljauIsBernstein(cp, 1.0);
    assert NaivePath(cp, ts)[i] == TruncCell(cp[0]);
    assert NaivePath(cp, ts)[j] == TruncCell(cp[3]);
  }

  /** The ideal sweep reaches both ends, so both passes over it mark the
      pixels of the first and of the last control point. */
  lemma UniformSweepHitsEnds(cp: seq<Point>, n: nat)
    requires |cp| == 4 && n > 0
    ensures RoundCell(cp[0]) in CurvePath(cp, UniformSamples(n))
    ensures RoundCell(cp[3]) in CurvePath(cp, UniformSamples(n))
    ensures TruncCell(cp[0]) in NaivePath(cp, UniformSamples(n))
    ensures TruncCell(cp[3]) in NaivePath(cp, UniformSamples(n))
  {
    var ts := UniformSamples(n);
    assert ts[0] == 0.0 && ts[n] == 1.0;
    CurvePathHitsEnds(cp, ts);
    NaivePathHitsEnds(cp, ts);
  }

  /** The point `color` samples at offset `(dx, dy)` from `p`. */
  function SubSample(p: Point, dx: real, dy: real): Point {
    Point(p.x + dx, p.y + dy)
  }

  /** For a pixel with whole coordinates, the four sub-samples address its
      own cell and the cells below, to the right and diagonally below-right:
      a 2x2 neighbourhood, not four sub-pixel samples. */
  lemma SubSampleCells(x: int, y: int)
    ensures RoundCell(Point(x as real, y as real)) == Cell(x, y)
    ensures RoundCell(SubSample(Point(x as real, y as real), 0.25, 0.25)) == Cell(x, y)
    ensures RoundCell(SubSample(Point(x as real, y as real), 0.25, 0.75)) == Cell(x, y + 1)
    ensures RoundCell(SubSample(Point(x as real, y as real), 0.75, 0.25)) == Cell(x + 1, y)
    ensures RoundCell(SubSample(Point(x as real, y as real), 0.75, 0.75)) == Cell(x + 1, y + 1)
  {
    RoundQuarters(x);
    RoundQuarters(y);
  }

  /** Whether pixel `(x, y)` is visited by the filter sweep around `b`: the
      sweep's own loop conditions `x_min - 6 <= x <= x_max + 6`, likewise for `y`. */
  predicate InSweep(b: Box, x: int, y: int) {
    b.xmin - Pad as real <= x as real <= b.xmax + Pad as real &&
    b.ymin - Pad as real <= y as real <= b.ymax + Pad as real
  }

  class Canvas {
    /** The window: `pixels[y, x]` is the pixel in row `y` and column `x`. */
    const pixels: array2<Pixel>

    /** `cv::Mat(height, width, CV_8UC3, cv::Scalar(0))`: an all-black window. */
    constructor (height: nat, width: nat)
      ensures fresh(pixels)
      ensures pixels.Length0 == height && pixels.Length1 == width
      ensures forall y, x :: 0 <= y < height && 0 <= x < width ==> pixels[y, x] == Black
    {
      pixels := new Pixel[height, width]((y, x) => Black);
    }

    predicate Contains(c: Cell) {
      0 <= c.y < pixels.Length0 && 0 <= c.x < pixels.Length1
    }

    /** `window.at<cv::Vec3b>(c)`. */
    function Get(c: Cell): Pixel
      requires Contains(c)
      reads pixels
    {
      pixels[c.y, c.x]
    }

    /** The padded box plus the right and lower neighbour the filter reads
        lies inside the window. */
    predicate SweepFits(b: Box) {
      0.0 <= b.xmin - Pad as real && b.xmax + Pad as real + 1.0 < pixels.Length1 as real &&
      0.0 <= b.ymin - Pad as real && b.ymax + Pad as real + 1.0 < pixels.Length0 as real
    }

    /** `naive_bezier`: for each `t`, set the red channel of the pixel the
        closed form truncates to; nothing else changes. */
    method NaiveBezier(cp: seq<Point>, ts: seq<real>)
      requires |cp| >= 4
      requires forall k :: 0 <= k < |ts| ==> Contains(TruncCell(Bernstein(cp, ts[k])))
      modifies pixels
      ensures forall y, x :: 0 <= y < pixels.Length0 && 0 <= x < pixels.Length1 ==>
        pixels[y, x] == Plotted(old(pixels[y, x]), Cell(x, y) in NaivePath(cp, ts), Red)
    {
      var i := 0;
      while i < |ts|
        invariant 0 <= i <= |ts|
        invariant forall y, x :: 0 <= y < pixels.Length0 && 0 <= x < pixels.Length1 ==>
          pixels[y, x] == Plotted(old(pixels[y, x]), Cell(x, y) in NaivePath(cp, ts)[..i], Red)
      {
        var t := ts[i];
        var point := Bernstein(cp, t);
        var c := TruncCell(point);
        pixels[c.y, c.x] := pixels[c.y, c.x].With(Red, Full);
        assert NaivePath(cp, ts)[..i + 1] == NaivePath(cp, ts)[..i] + [c];
        i := i + 1;
      }
      assert NaivePath(cp, ts)[..|ts|] == NaivePath(cp, ts);
    }

    /** `bezier`: for each `t`, set the green channel of the pixel the
        de Casteljau point rounds to; nothing else changes. */
    method Bezier(cp: seq<Point>, ts: seq<real>)
      requires |cp| >= 1
      requires forall k :: 0 <= k < |ts| ==> Contains(RoundCell(DeCasteljau(cp, ts[k])))
      modifies pixels
      ensures forall y, x :: 0 <= y < pixels.Length0 && 0 <= x < pixels.Length1 ==>
        pixels[y, x] == Plotted(old(pixels[y, x]), Cell(x, y) in CurvePath(cp, ts), Green)
    {
      var i := 0;
      while i < |ts|
        invariant 0 <= i <= |ts|
        invariant forall y, x :: 0 <= y < pixels.Length0 && 0 <= x < pixels.Length1 ==>
          pixels[y, x] == Plotted(old(pixels[y, x]), Cell(x, y) in CurvePath(cp, ts)[..i], Green)
      {
        var point := RecursiveBezier(cp, ts[i]);
        var c := RoundCell(point);
        pixels[c.y, c.x] := pixels[c.y, c.x].With(Green, Full);
        assert CurvePath(cp, ts)[..i + 1] == CurvePath(cp, ts)[..i] + [c];
        i := i + 1;
      }
      assert CurvePath(cp, ts)[..|ts|] == CurvePath(cp, ts);
    }

    /** `color`: read the pixels at the four quarter offsets of `p`, then store
        their per-channel average into the pixel at `p`. Every value is read
        before the write, and no other pixel changes. */
    method Color(p: Point)
      requires Contains(RoundCell(p))
      requires Contains(RoundCell(SubSample(p, 0.25, 0.25)))
      requires Contains(RoundCell(SubSample(p, 0.25, 0.75)))
      requires Contains(RoundCell(SubSample(p, 0.75, 0.25)))
      requires Contains(RoundCell(SubSample(p, 0.75, 0.75)))
      modifies pixels
      ensures Get(RoundCell(p)) == AveragePixel(old(Get(RoundCell(SubSample(p, 0.25, 0.25)))),
                                                old(Get(RoundCell(SubSample(p, 0.25, 0.75)))),
                                                old(Get(RoundCell(SubSample(p, 0.75, 0.25)))),
                                                old(Get(RoundCell(SubSample(p, 0.75, 0.75)))))
      ensures forall y, x :: 0 <= y < pixels.Length0 && 0 <= x < pixels.Length1 && Cell(x, y) != RoundCell(p) ==>
        pixels[y, x] == old(pixels[y, x])
    {
      var p1 := Get(RoundCell(SubSample(p, 0.25, 0.25)));
      var p2 := Get(RoundCell(SubSample(p, 0.25, 0.75)));
      var p3 := Get(RoundCell(SubSample(p, 0.75, 0.25)));
      var p4 := Get(RoundCell(SubSample(p, 0.75, 0.75)));
      var c := RoundCell(p);
      pixels[c.y, c.x] := pixels[c.y, c.x].With(Blue, Average(p1.b, p2.b, p3.b, p4.b));
      pixels[c.y, c.x] := pixels[c.y, c.x].With(Green, Average(p1.g, p2.g, p3.g, p4.g));
      pixels[c.y, c.x] := pixels[c.y, c.x].With(Red, Average(p1.r, p2.r, p3.r, p4.r));
    }

    /** One step of the sweep, `color(cv::Point2f(x, y))` for a pixel with
        whole coordinates: the pixel becomes the average of its 2x2
        neighbourhood as it was before, and no other pixel changes. */
    method FilterPixel(x: int, y: int)
      requires 0 <= x && x + 1 < pixels.Length1
      requires 0 <= y && y + 1 < pixels.Length0
      modifies pixels
      ensures pixels[y, x] == AveragePixel(old(pixels[y, x]), old(pixels[y + 1, x]),
                                           old(pixels[y, x + 1]), old(pixels[y + 1, x + 1]))
      ensures forall y', x' :: 0 <= y' < pixels.Length0 && 0 <= x' < pixels.Length1 && (y', x') != (y, x) ==>
        pixels[y', x'] == old(pixels[y', x'])
    {
      SubSampleCells(x, y);
      Color(Point(x as real, y as real));
    }

    /** The nested sweep of `antialiasing`: `color` at every pixel with
        `x0 <= x <= x1` and `y0 <= y <= y1`, columns outermost, both
        increasing. Each pixel then holds the average of its 2x2
        neighbourhood as it was before the sweep, which is what a filter
        writing into a separate image would produce; pixels outside the
        range keep their values. */
    method FilterSweep(x0: int, x1: int, y0: int, y1: int)
      requires 0 <= x0 <= x1 && x1 + 1 < pixels.Length1
      requires 0 <= y0 <= y1 && y1 + 1 < pixels.Length0
      modifies pixels
      ensures forall y, x :: 0 <= y < pixels.Length0 && 0 <= x < pixels.Length1 ==>
        pixels[y, x] == if x0 <= x <= x1 && y0 <= y <= y1
                        then AveragePixel(old(pixels[y, x]), old(pixels[y + 1, x]),
                                          old(pixels[y, x + 1]), old(pixels[y + 1, x + 1]))
                        else old(pixels[y, x])
    {
      var x := x0;
      while x <= x1
        invariant x0 <= x <= x1 + 1
        invariant forall y', x' :: 0 <= y' < pixels.Length0 && 0 <= x' < pixels.Length1 ==>
          pixels[y', x'] == if x0 <= x' < x && y0 <= y' <= y1
                            then AveragePixel(old(pixels[y', x']), old(pixels[y' + 1, x']),
                                              old(pixels[y', x' + 1]), old(pixels[y' + 1, x' + 1]))
                            else old(pixels[y', x'])
      {
        var y := y0;
        while y <= y1
          invariant y0 <= y <= y1 + 1
          invariant forall y', x' :: 0 <= y' < pixels.Length0 && 0 <= x' < pixels.Length1 ==>
            pixels[y', x'] == if (x0 <= x' < x && y0 <= y' <= y1) || (x' == x && y0 <= y' < y)
                              then AveragePixel(old(pixels[y', x']), old(pixels[y' + 1, x']),
                                                old(pixels[y', x' + 1]), old(pixels[y' + 1, x' + 1]))
                              else old(pixels[y', x'])
        {
          FilterPixel(x, y);
          y := y + 1;
        }
        x := x + 1;
      }
    }

    /** `antialiasing`: mark the de Casteljau samples in green, then filter
        every pixel of the control points' box padded by `Pad`. */
    method Antialiasing(cp: seq<Point>, ts: seq<real>)
      requires |cp| == 4
      requires forall i :: 0 <= i < 4 ==> Integral(cp[i])
      requires forall k :: 0 <= k < |ts| ==> 0.0 <= ts[k] <= 1.0
      requires SweepFits(BoundingBox(cp))
      modifies pixels
      ensures forall y, x :: 0 <= y < pixels.Length0 && 0 <= x < pixels.Length1 ==>
        var path := CurvePath(cp, ts);
        pixels[y, x] == if InSweep(BoundingBox(cp), x, y)
                        then AveragePixel(Plotted(old(pixels[y, x]), Cell(x, y) in path, Green),
                                          Plotted(old(pixels[y + 1, x]), Cell(x, y + 1) in path, Green),
                                          Plotted(old(pixels[y, x + 1]), Cell(x + 1, y) in path, Green),
                                          Plotted(old(pixels[y + 1, x + 1]), Cell(x + 1, y + 1) in path, Green))
                        else Plotted(old(pixels[y, x]), Cell(x, y) in path, Green)
    {
      var b := BoundingBox(cp);
      var x0, x1 := b.xmin.Floor, b.xmax.Floor;
      var y0, y1 := b.ymin.Floor, b.ymax.Floor;
      assert x0 as real == b.xmin && x1 as real == b.xmax;
      assert y0 as real == b.ymin && y1 as real == b.ymax;
      forall k | 0 <= k < |ts| ensures Contains(RoundCell(DeCasteljau(cp, ts[k]))) {
        StaysInBox(cp, ts[k], b);
        var q := DeCasteljau(cp, ts[k]);
        RoundBetween(q.x, x0, x1);
        RoundBetween(q.y, y0, y1);
      }
      Bezier(cp, ts);
      FilterSweep(x0 - Pad, x1 + Pad, y0 - Pad, y1 + Pad);
    }
  }

  /** Whether cell `c` lies in a window of `height` rows and `width` columns. */
  predicate InWindow(c: Cell, height: nat, width: nat) {
    0 <= c.y < height && 0 <= c.x < width
  }

  /** The drawing `main` does once four points are recorded: a new black
      window, the closed-form pass in red, then the de Casteljau pass in green.
      A pixel ends up red where only the first pass marked it, green where only
      the second did, and yellow where both did. */
  method Render(cp: seq<Point>, naiveTs: seq<real>, curveTs: seq<real>, height: nat, width: nat)
      returns (window: Canvas)
    requires |cp| >= 4
    requires forall k :: 0 <= k < |naiveTs| ==> InWindow(TruncCell(Bernstein(cp, naiveTs[k])), height, width)
    requires forall k :: 0 <= k < |curveTs| ==> InWindow(RoundCell(DeCasteljau(cp, curveTs[k])), height, width)
    ensures fresh(window.pixels)
    ensures window.pixels.Length0 == height && window.pixels.Length1 == width
    ensures forall y, x :: 0 <= y < height && 0 <= x < width ==>
      window.pixels[y, x] == Pixel(0, if Cell(x, y) in CurvePath(cp, curveTs) then Full else 0,
                                      if Cell(x, y) in NaivePath(cp, naiveTs) then Full else 0)
  {
    window := new Canvas(height, width);
    window.NaiveBezier(cp, naiveTs);
    window.Bezier(cp, curveTs);
  }
}
