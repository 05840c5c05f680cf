/** Pixel values and rasters. A pixel is a floating-point value whose only
    behaviour the pipeline depends on is whether it is finite, so the model
    keeps the three non-finite values apart and needs no float arithmetic. */
module Pixels {

  datatype Pixel = Finite(value: real) | NaN | PosInf | NegInf

  /** `np.isfinite` */
  predicate IsFinite(p: Pixel) {
    p.Finite?
  }

  /** One band: a rows × cols grid, indexed [row][col]. */
  type Grid = seq<seq<Pixel>>

  predicate IsGrid(g: Grid, rows: nat, cols: nat) {
    |g| == rows && forall r :: 0 <= r < rows ==> |g[r]| == cols
  }

  /** A stack of bands that all share the same rows × cols dimensions. */
  predicate IsStack(bands: seq<Grid>, rows: nat, cols: nat) {
    forall b :: 0 <= b < |bands| ==> IsGrid(bands[b], rows, cols)
  }

  /** `np.full_like(band, v)`: a band of the given shape holding v everywhere. */
  function Uniform(rows: nat, cols: nat, v: Pixel): (g: Grid)
    ensures IsGrid(g, rows, cols)
    ensures forall r, c :: 0 <= r < rows && 0 <= c < cols ==> g[r][c] == v
  {
    seq(rows, _ => seq(cols, _ => v))
  }
}
