# Cubic Bézier rendering core, in Dafny

This project models the rendering core of a small OpenCV program that draws a
cubic Bézier curve from four clicked control points into a 700×700 window.
The core has three parts:

- **Curve evaluators** (`bezier.dfy`): de Casteljau's recursive subdivision
  (`recursive_bezier`) and the closed-form Bernstein polynomial (the body of
  `naive_bezier`).
- **Point-plotting rasterizers** (`raster.dfy`, class `Canvas`): `naive_bezier`
  sets the red channel of one pixel per parameter value. `bezier` does the same
  with the green channel.
- **Box-filter anti-aliasing** (`raster.dfy`): `antialiasing` plots the curve in
  green, takes the bounding box of the control points, pads it by 6, and runs
  `color` on every pixel of the box. `color` replaces a pixel with the
  per-channel average of four sub-sample reads.

Floating-point values are idealised as `real`. `cv::Point2f` is the datatype
`Geometry.Point`. The `cv::Mat` window is the class `Raster.Canvas`, which holds an
`array2<Pixel>` indexed `[row, column]`. A `Pixel` has three byte channels in
blue, green, red order, like `cv::Vec3b`. Pixel addressing is modelled
explicitly in `quantise.dfy`, and it differs between the passes:

- `at(int row, int col)` given `float` arguments truncates them toward zero
  (`Quantise.Trunc`, `Quantise.TruncCell`).
- `at(cv::Point)` given a `cv::Point2f` first converts it with `cvRound`. That
  rounds to nearest, with ties to even (`Quantise.Round`, `Quantise.RoundCell`).
- Storing the `float` average into a `uchar` truncates it (`Pixels.Average`).

The parameter sweeps `for (t = 0; t <= 1; t += step)` are modelled as an
explicit sequence `ts` of parameter values, which the caller passes in.
`Raster.UniformSamples(n)` gives the ideal sweep `0, 1/n, …, 1`.

The four control points and the window are parameters. The mouse handler,
event loop, markers and image display are not modelled.

The code's `at<>` accesses are unchecked, and it reads `points[0..3]`
without checking how many points there are. So in-bounds addressing and the
number of control points are preconditions here. Only `naive_bezier`
truncates coordinates; `bezier` and `color` convert through `cvRound`.

## Model

| member | source | states |
|---|---|---|
| `Geometry.Lerp` | main.cpp:43 | `(1-t)·p + t·q` is `p` at `t = 0` and `q` at `t = 1` |
| `Geometry.LerpBetween` | main.cpp:43 | for `t` in [0,1] an interpolated point lies between its two ends on each axis |
| `Geometry.Min` | main.cpp:100-106 | `std::min_element`: the result is an element of the sequence and no element is smaller |
| `Geometry.Max` | main.cpp:107-112 | `std::max_element`: the result is an element of the sequence and no element is larger |
| `Geometry.BoundingBox` | main.cpp:100-112 | the min/max of the four control points' x and y: the box holds all four points, and each side passes through one of them |
| `Bezier.Reduce` | main.cpp:40-45 | one round of the loop yields exactly `n-1` points, and point `i` is `(1-t)·p[i] + t·p[i+1]` |
| `Bezier.DeCasteljau` | main.cpp:33-49 | reference definition of `recursive_bezier`'s result: reduce by `Reduce` until one point is left; `Levels`, `StartsAtFirst`, `EndsAtLast`, `StaysInBox`, `DeCasteljauIsBernstein` and `RecursiveBezier` are stated about it |
| `Bezier.Levels` | main.cpp:36-47 | the recursion visits exactly `n` sequences of lengths `n, n-1, …, 1`, each one round of interpolation of the one before, the last being the single curve point; so it stops after `n-1` steps |
| `Bezier.SinglePoint` | main.cpp:36-38 | a one-point sequence evaluates to that point for every `t` |
| `Bezier.StartsAtFirst` | main.cpp:36-46 | at `t = 0` the curve point is the first control point, for any non-empty input |
| `Bezier.EndsAtLast` | main.cpp:36-46 | at `t = 1` the curve point is the last control point, for any non-empty input |
| `Bezier.StaysInBox` | main.cpp:36-46 | for `t` in [0,1] the curve point lies in every axis-aligned box that holds all control points (convex-hull property) |
| `Bezier.Bernstein` | main.cpp:26-27 | reference definition of the closed form `naive_bezier` computes, summed in the code's order; `CubicPoint` and `DeCasteljauIsBernstein` are stated about it |
| `Bezier.QuadraticCoordinate` | main.cpp:43 | two nested interpolations of three numbers equal their quadratic Bernstein sum |
| `Bezier.CubicCoordinate` | main.cpp:26-27 | three nested interpolations of four numbers equal their Bernstein sum |
| `Bezier.CubicPoint` | main.cpp:26-27 | three rounds of interpolation of four points equal the Bernstein combination of them |
| `Bezier.DeCasteljauIsBernstein` | main.cpp:26-27 | for four control points, `recursive_bezier` and the closed form of `naive_bezier` agree at every `t` |
| `Bezier.RecursiveBezier` | main.cpp:33-49 | the loop-and-recurse implementation returns the de Casteljau point of its input |
| `Quantise.Trunc` | main.cpp:29 | float-to-int conversion: the result is the value with its fractional part dropped, toward zero on both sides of 0 |
| `Quantise.Round` | main.cpp:57 | `cvRound`: the result is within 1/2 of the value, and on a tie it is even |
| `Quantise.RoundQuarters` | main.cpp:67-70 | an integer rounds to itself; `n + 0.25` rounds to `n` and `n + 0.75` to `n + 1` |
| `Quantise.RoundBetween` | main.cpp:57 | rounding a value between two integers gives a result between them |
| `Quantise.TruncCell` | main.cpp:29 | `at(point.y, point.x)` reaches the pixel whose unit square holds a non-negative point |
| `Quantise.RoundCell` | main.cpp:57 | `at(cv::Point(p))` reaches the pixel within half a pixel of `p` on each axis |
| `Pixels.Pixel.With` | main.cpp:29 | storing into one channel sets that channel and leaves the other two unchanged |
| `Pixels.Average` | main.cpp:86-88 | the truncated quarter of the sum of four bytes: `4m <= sum < 4m+4`, and `m` lies between the least and the greatest sample, so it is a byte |
| `Pixels.AveragePixel` | main.cpp:86-88 | every channel of the result is the `Average` of that channel in the four samples |
| `Pixels.Plotted` | main.cpp:29 | after a pass, the pass's channel of a sample pixel is 255; otherwise it is unchanged, and the other channels are always unchanged |
| `Raster.UniformSamples` | main.cpp:24 | the ideal sweep starts at 0, ends at 1, increases strictly and stays in [0,1] |
| `Raster.NaivePath` | main.cpp:24-29 | reference definition of the pixels `naive_bezier` marks, one per `t` in sweep order; `NaivePathHitsEnds` and `NaiveBezier`'s contract are stated about it |
| `Raster.CurvePath` | main.cpp:55-57 | reference definition of the pixels `bezier` marks, one per `t` in sweep order; `CurvePathHitsEnds`, `Bezier`'s and `Antialiasing`'s contracts are stated about it |
| `Raster.CurvePathHitsEnds` | main.cpp:55-57 | a sweep that includes 0 and 1 marks the rounded pixels of the first and last control points |
| `Raster.NaivePathHitsEnds` | main.cpp:24-29 | a sweep that includes 0 and 1 marks the truncated pixels of the first and last of the four control points |
| `Raster.UniformSweepHitsEnds` | main.cpp:17-60 | on the ideal sweep `0, 1/n, …, 1` both passes mark the pixels of the first and of the fourth control point |
| `Raster.SubSample` | main.cpp:67-70 | reference definition of the four sample points `p + (0.25, 0.25)`, `(0.25, 0.75)`, `(0.75, 0.25)`, `(0.75, 0.75)`; `SubSampleCells` and `Color`'s contract are stated about it |
| `Raster.SubSampleCells` | main.cpp:67-70 | for a whole-numbered pixel `(x,y)`, the four sub-samples address `(x,y)`, `(x,y+1)`, `(x+1,y)` and `(x+1,y+1)`, and `p` itself addresses `(x,y)` |
| `Raster.InSweep` | main.cpp:114-116 | reference definition of the pixels the sweep visits, its loop bounds `min - 6 <= x <= max + 6` on each axis; `Antialiasing`'s contract is stated about it |
| `Raster.Canvas.constructor` | main.cpp:128 | the window is a new array of the given size with every pixel black |
| `Raster.Canvas.NaiveBezier` | main.cpp:17-31 | afterwards every pixel equals its old value with the red channel set to 255 exactly when it is one of the truncated closed-form samples |
| `Raster.Canvas.Bezier` | main.cpp:51-60 | afterwards every pixel equals its old value with the green channel set to 255 exactly when it is one of the rounded de Casteljau samples |
| `Raster.Canvas.Color` | main.cpp:62-89 | the pixel at `p` becomes the per-channel average of the four sub-sample pixels as they were before the call; no other pixel changes |
| `Raster.Canvas.FilterPixel` | main.cpp:119-120 | `color` at a whole-numbered pixel: that pixel becomes the average of its 2×2 neighbourhood as it was before, and no other pixel changes |
| `Raster.Canvas.FilterSweep` | main.cpp:114-122 | every pixel in the range becomes the average of its 2×2 neighbourhood's values from before the sweep, so the in-place filter equals an out-of-place one; pixels outside the range are unchanged |
| `Raster.Canvas.Antialiasing` | main.cpp:91-124 | the final window is the box filter, over exactly the pixels of the padded bounding box, applied to the window with the green de Casteljau samples plotted; outside the box only the plotting shows |
| `Raster.Render` | main.cpp:128-145 | a new black window after `naive_bezier` then `bezier`: each pixel's red channel is 255 exactly when the closed-form pass marked it, its green channel exactly when the de Casteljau pass did, and the rest stays 0 |

## Left out

- The mouse handler, the global control-point vector, the window's name and
  callback, the event loop, the `cv::circle` markers, and
  `imshow`/`imwrite`/`waitKey` (main.cpp:5-15, 130-160). These are user-interface
  and I/O code. The model takes the points as parameters. `Raster.Render` models
  the window creation and the two passes (main.cpp:128, 144-145); it does not
  draw the white markers first, so where a marker overlaps the curve the model's
  pixel differs from the program's.
- `cvtColor(window, window, COLOR_BGR2RGB)` (main.cpp:129) is not modelled: it
  runs on the all-black window, where swapping channels changes nothing.
- IEEE floating point. Evaluation rounding error is not modelled. Nor is the
  exact set of `t` values that `t += 0.001` and `t += 0.0001` produce, because
  accumulated error can drop `t = 1` from the sweep. The sweeps are an explicit
  `ts` sequence instead.
- Out-of-range addressing. `at<>` is unchecked, so a pixel outside the window
  is undefined behaviour. Every method requires its accesses to be in bounds;
  no clamp or skip policy is invented.
- Raster.Canvas.NaiveBezier: requires at least four control points, because the
  code reads `points[0..3]` unchecked. Only the first four are used.
- Raster.Canvas.Bezier: requires a non-empty sequence. On an empty one,
  `control_points.size() - 1` wraps around and the code reads out of bounds.
- Raster.Canvas.Antialiasing: requires exactly four control points with
  whole-number coordinates, as the mouse handler records them. With these,
  every sweep coordinate is a whole number, and the sub-sample reads are then
  the 2×2 neighbourhood. The case of fractional control points is not modelled.
- Raster.Canvas.Antialiasing: its first loop (main.cpp:95-98) repeats `bezier`'s
  loop; the model calls `Bezier` for it.
- Saturation in the `Point2f`→`Point` conversion, which is only reached outside
  the window.
