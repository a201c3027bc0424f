/** The pixels of a `CV_8UC3` image: three 8-bit channels in blue, green,
    red order (`cv::Vec3b`), and the per-channel arithmetic done on them. */
module Pixels {
  import opened Quantise

  type Byte = v: int | 0 <= v < 256

  /** A channel index of `cv::Vec3b`. */
  type Channel = c: int | 0 <= c < 3

  const Blue: Channel := 0
  const Green: Channel := 1
  const Red: Channel := 2

  /** The value a rasterizer stores into its channel. */
  const Full: Byte := 255

  datatype Pixel = Pixel(b: Byte, g: Byte, r: Byte) {
    /** `pixel[c]`. */
    function At(c: Channel): Byte {
      if c == Blue then b else if c == Green then g else r
    }

    /** The pixel after `pixel[c] = v`: channel `c` holds `v`, the others keep their values. */
    function With(c: Channel, v: Byte): (q: Pixel)
      ensures q.At(c) == v
      ensures forall d: Channel :: d != c ==> q.At(d) == At(d)
    {
      if c == Blue then Pixel(v, g, r) else if c == Green then Pixel(b, v, r) else Pixel(b, g, v)
    }
  }

  /** `cv::Scalar(0)`. */
  const Black := Pixel(0, 0, 0)

  function MinInt(a: int, b: int): int { if a <= b then a else b }
  function MaxInt(a: int, b: int): int { if a <= b then b else a }

  /** `(a + b + c + d) / 4` computed in `float` and stored into a `uchar`:
      the quotient truncated, which lies between the least and the greatest
      of the four samples. */
  function Average(a: Byte, b: Byte, c: Byte, d: Byte): (m: Byte)
    ensures 4 * m <= a + b + c + d < 4 * m + 4
    ensures MinInt(MinInt(a, b), MinInt(c, d)) <= m <= MaxInt(MaxInt(a, b), MaxInt(c, d))
  {
    Trunc((a + b + c + d) as real / 4.0)
  }

  /** The four-sample box filter applied to each channel. */
  function AveragePixel(p1: Pixel, p2: Pixel, p3: Pixel, p4: Pixel): (q: Pixel)
    ensures forall c: Channel :: q.At(c) == Average(p1.At(c), p2.At(c), p3.At(c), p4.At(c))
  {
    Pixel(Average(p1.b, p2.b, p3.b, p4.b), Average(p1.g, p2.g, p3.g, p4.g), Average(p1.r, p2.r, p3.r, p4.r))
  }

  /** A pixel after a rasterizer pass that writes `Full` into channel `c` of every
      sample pixel: `hit` says whether this pixel is one of them. */
  function Plotted(px: Pixel, hit: bool, c: Channel): (q: Pixel)
    ensures q.At(c) == if hit then Full else px.At(c)
    ensures forall d: Channel :: d != c ==> q.At(d) == px.At(d)
  {
    if hit then px.With(c, Full) else px
  }
}
