/** Pixelwise inference (`predict`, lines 129-185, without its I/O to plots
    and CSV): the augmented raster is flattened into one sample per pixel,
    non-finite entries are replaced by the substitute constant, the estimator
    is called once on all samples, its output is reshaped to the grid, and
    every pixel whose band 0 was non-finite is forced to NaN. */
module Inference {
  import opened Outcomes
  import opened Pixels
  import opened Augment
  import Paths

  // ---------------------------------------------------------------------
  // Row-major indexing: pixel (r, c) of a rows × cols grid is sample r*cols + c
  // ---------------------------------------------------------------------

  lemma LinearBound(r: nat, c: nat, rows: nat, cols: nat)
    requires r < rows && c < cols
    ensures r * cols + c < rows * cols
  {
    assert (r + 1) * cols <= rows * cols by {
      assert rows * cols == (r + 1) * cols + (rows - r - 1) * cols;
    }
  }

  /** Euclidean division is unique: a quotient and a remainder in range are k / cols and k % cols. */
  lemma DivUnique(k: int, cols: int, q: int, m: int)
    requires cols > 0 && 0 <= m < cols && k == q * cols + m
    ensures k / cols == q && k % cols == m
  {
    var q', m' := k / cols, k % cols;
    var d := q - q';
    assert d * cols == m' - m by {
      assert q * cols - q' * cols == d * cols;
    }
  }

  lemma Linearize(r: nat, c: nat, cols: nat)
    requires c < cols
    ensures (r * cols + c) / cols == r && (r * cols + c) % cols == c
  {
    DivUnique(r * cols + c, cols, r, c);
  }

  lemma DivBound(k: nat, rows: nat, cols: nat)
    requires k < rows * cols
    ensures 0 < cols && k / cols < rows && k % cols < cols
  {
  }

  /** The sample index of pixel (r, c). */
  function SampleIndex(rows: nat, cols: nat, r: nat, c: nat): (k: nat)
    requires r < rows && c < cols
    ensures k < rows * cols
  {
    LinearBound(r, c, rows, cols);
    r * cols + c
  }

  /** The pixel of sample k: row k div cols, column k mod cols. */
  function PixelOf(rows: nat, cols: nat, k: nat): (rc: (nat, nat))
    requires k < rows * cols
    ensures rc.0 < rows && rc.1 < cols
  {
    DivBound(k, rows, cols);
    (k / cols, k % cols)
  }

  /** The two index maps are inverse bijections between the pixels of the
      grid and the sample indices 0 .. rows*cols - 1. */
  lemma IndexBijection(rows: nat, cols: nat)
    ensures forall r: nat, c: nat :: r < rows && c < cols ==> PixelOf(rows, cols, SampleIndex(rows, cols, r, c)) == (r, c)
    ensures forall k: nat :: k < rows * cols ==> SampleIndex(rows, cols, PixelOf(rows, cols, k).0, PixelOf(rows, cols, k).1) == k
  {
    forall r: nat, c: nat | r < rows && c < cols
      ensures PixelOf(rows, cols, SampleIndex(rows, cols, r, c)) == (r, c)
    {
      Linearize(r, c, cols);
    }
  }

  // ---------------------------------------------------------------------
  // Line 137: the band stack transposed to one row of features per pixel
  // ---------------------------------------------------------------------

  /** Sample k of the stack: feature b is band b at pixel (k div cols, k mod cols). */
  function Sample(bands: seq<Grid>, rows: nat, cols: nat, k: nat): (sample: seq<Pixel>)
    requires IsStack(bands, rows, cols) && k < rows * cols
    ensures |sample| == |bands|
  {
    var rc := PixelOf(rows, cols, k);
    seq(|bands|, b requires 0 <= b < |bands| => bands[b][rc.0][rc.1])
  }

  /** The sample matrix: rows*cols samples of |bands| features each. */
  function Flatten(bands: seq<Grid>, rows: nat, cols: nat): (samples: seq<seq<Pixel>>)
    requires IsStack(bands, rows, cols)
    ensures |samples| == rows * cols
    ensures forall k :: 0 <= k < |samples| ==> |samples[k]| == |bands|
  {
    seq(rows * cols, k requires 0 <= k < rows * cols => Sample(bands, rows, cols, k))
  }

  /** Pixel (r, c) of band b becomes feature b of sample r*cols + c. */
  lemma FlattenAt(bands: seq<Grid>, rows: nat, cols: nat, r: nat, c: nat, b: nat)
    requires IsStack(bands, rows, cols) && r < rows && c < cols && b < |bands|
    ensures Flatten(bands, rows, cols)[SampleIndex(rows, cols, r, c)][b] == bands[b][r][c]
  {
    Linearize(r, c, cols);
  }

  /** Feature b of every sample, in sample order. */
  function Feature(samples: seq<seq<Pixel>>, b: nat): (column: seq<Pixel>)
    requires forall k :: 0 <= k < |samples| ==> b < |samples[k]|
    ensures |column| == |samples|
  {
    seq(|samples|, k requires 0 <= k < |samples| => samples[k][b])
  }

  // ---------------------------------------------------------------------
  // Line 158: the prediction vector reshaped to the grid
  // ---------------------------------------------------------------------

  /** The grid whose pixel (r, c) is entry r*cols + c of v. */
  function Reshape(v: seq<Pixel>, rows: nat, cols: nat): (g: Grid)
    requires |v| == rows * cols
    ensures IsGrid(g, rows, cols)
  {
    seq(rows, r requires 0 <= r < rows =>
      seq(cols, c requires 0 <= c < cols => v[SampleIndex(rows, cols, r, c)]))
  }

  /** Entry k of the vector lands at (k div cols, k mod cols). */
  lemma ReshapeAt(v: seq<Pixel>, rows: nat, cols: nat, k: nat)
    requires |v| == rows * cols && k < rows * cols
    ensures var rc := PixelOf(rows, cols, k); Reshape(v, rows, cols)[rc.0][rc.1] == v[k]
  {
    var rc := PixelOf(rows, cols, k);
    assert k == rc.0 * cols + rc.1;
  }

  /** Reshaping feature b of the sample matrix gives band b back. */
  lemma ReshapeRecoversBand(bands: seq<Grid>, rows: nat, cols: nat, b: nat)
    requires IsStack(bands, rows, cols) && b < |bands|
    ensures Reshape(Feature(Flatten(bands, rows, cols), b), rows, cols) == bands[b]
  {
    var g := Reshape(Feature(Flatten(bands, rows, cols), b), rows, cols);
    forall r | 0 <= r < rows
      ensures g[r] == bands[b][r]
    {
      forall c | 0 <= c < cols
        ensures g[r][c] == bands[b][r][c]
      {
        FlattenAt(bands, rows, cols, r, c, b);
      }
    }
  }

  /** Flattening a reshaped vector gives the vector back. */
  lemma FlattenRecoversVector(v: seq<Pixel>, rows: nat, cols: nat)
    requires |v| == rows * cols
    ensures IsStack([Reshape(v, rows, cols)], rows, cols)
    ensures Feature(Flatten([Reshape(v, rows, cols)], rows, cols), 0) == v
  {
    var g := Reshape(v, rows, cols);
    var column := Feature(Flatten([g], rows, cols), 0);
    forall k | 0 <= k < rows * cols
      ensures column[k] == v[k]
    {
      ReshapeAt(v, rows, cols, k);
    }
  }

  // ---------------------------------------------------------------------
  // Line 141: non-finite sample entries replaced by the substitute constant
  // ---------------------------------------------------------------------

  /** One entry: kept when finite, the substitute constant otherwise. */
  function Substitute(p: Pixel, fill: real): (q: Pixel)
    ensures IsFinite(q)
    ensures IsFinite(p) ==> q == p
    ensures !IsFinite(p) ==> q == Finite(fill)
  {
    if IsFinite(p) then p else Finite(fill)
  }

  /** Every entry of the result is finite; finite entries are kept and the
      others become the substitute constant. */
  function Sanitize(samples: seq<seq<Pixel>>, fill: real): (clean: seq<seq<Pixel>>)
    ensures |clean| == |samples|
    ensures forall k :: 0 <= k < |samples| ==> |clean[k]| == |samples[k]|
    ensures forall k, b :: 0 <= k < |samples| && 0 <= b < |samples[k]| ==>
      && IsFinite(clean[k][b])
      && (IsFinite(samples[k][b]) ==> clean[k][b] == samples[k][b])
      && (!IsFinite(samples[k][b]) ==> clean[k][b] == Finite(fill))
  {
    seq(|samples|, k requires 0 <= k < |samples| =>
      seq(|samples[k]|, b requires 0 <= b < |samples[k]| => Substitute(samples[k][b], fill)))
  }

  /** Substituting twice changes nothing more. */
  lemma SanitizeIdempotent(samples: seq<seq<Pixel>>, fill: real)
    ensures Sanitize(Sanitize(samples, fill), fill) == Sanitize(samples, fill)
  {
    var once := Sanitize(samples, fill);
    var twice := Sanitize(once, fill);
    forall k | 0 <= k < |samples|
      ensures twice[k] == once[k]
    {
    }
  }

  // ---------------------------------------------------------------------
  // In-place updates on the sample matrix and on the prediction grid
  // ---------------------------------------------------------------------

  /** The contents of a two-dimensional array, row by row. */
  function Contents(a: array2<Pixel>): (rows: seq<seq<Pixel>>)
    reads a
    ensures IsGrid(rows, a.Length0, a.Length1)
    ensures forall i, j :: 0 <= i < a.Length0 && 0 <= j < a.Length1 ==> rows[i][j] == a[i, j]
  {
    seq(a.Length0, i requires 0 <= i < a.Length0 reads a =>
      seq(a.Length1, j requires 0 <= j < a.Length1 reads a => a[i, j]))
  }

  /** Line 141 on the sample matrix, entry by entry. */
  method SubstituteNonFinite(a: array2<Pixel>, fill: real)
    modifies a
    ensures forall i, j :: 0 <= i < a.Length0 && 0 <= j < a.Length1 ==> a[i, j] == Substitute(old(a[i, j]), fill)
  {
    var i := 0;
    while i < a.Length0
      invariant 0 <= i <= a.Length0
      invariant forall x, y :: 0 <= x < a.Length0 && 0 <= y < a.Length1 ==>
        a[x, y] == if x < i then Substitute(old(a[x, y]), fill) else old(a[x, y])
    {
      var j := 0;
      while j < a.Length1
        invariant 0 <= j <= a.Length1
        invariant forall x, y :: 0 <= x < a.Length0 && 0 <= y < a.Length1 ==>
          a[x, y] == if x < i || (x == i && y < j) then Substitute(old(a[x, y]), fill) else old(a[x, y])
      {
        if !IsFinite(a[i, j]) {
          a[i, j] := Finite(fill);
        }
        j := j + 1;
      }
      i := i + 1;
    }
  }

  /** Line 160: every masked pixel of the prediction grid becomes NaN. */
  method ApplyMask(a: array2<Pixel>, mask: seq<seq<bool>>)
    requires |mask| == a.Length0 && forall r :: 0 <= r < |mask| ==> |mask[r]| == a.Length1
    modifies a
    ensures forall i, j :: 0 <= i < a.Length0 && 0 <= j < a.Length1 ==>
      a[i, j] == if mask[i][j] then NaN else old(a[i, j])
  {
    var i := 0;
    while i < a.Length0
      invariant 0 <= i <= a.Length0
      invariant forall x, y :: 0 <= x < a.Length0 && 0 <= y < a.Length1 ==>
        a[x, y] == if x < i && mask[x][y] then NaN else old(a[x, y])
    {
      var j := 0;
      while j < a.Length1
        invariant 0 <= j <= a.Length1
        invariant forall x, y :: 0 <= x < a.Length0 && 0 <= y < a.Length1 ==>
          a[x, y] == if (x < i || (x == i && y < j)) && mask[x][y] then NaN else old(a[x, y])
      {
        if mask[i][j] {
          a[i, j] := NaN;
        }
        j := j + 1;
      }
      i := i + 1;
    }
  }

  // ---------------------------------------------------------------------
  // predict
  // ---------------------------------------------------------------------

  /** Line 139: the pixels where the first band is not finite. */
  function NonFiniteMask(band: Grid, rows: nat, cols: nat): (mask: seq<seq<bool>>)
    requires IsGrid(band, rows, cols)
    ensures |mask| == rows && forall r :: 0 <= r < rows ==> |mask[r]| == cols
    ensures forall r, c :: 0 <= r < rows && 0 <= c < cols ==> (mask[r][c] <==> !IsFinite(band[r][c]))
  {
    seq(rows, r requires 0 <= r < rows => seq(cols, c requires 0 <= c < cols => !IsFinite(band[r][c])))
  }

  /** Line 132: the bands read back from a stored raster; a band
      slot that was never written reads back as `blank` everywhere. */
  function ReadBack(file: StoredRaster, blank: Pixel): (bands: seq<Grid>)
    requires file.WellFormed()
    ensures |bands| == |file.bands|
    ensures IsStack(bands, file.rows, file.cols)
    ensures forall k :: 0 <= k < |bands| ==>
      bands[k] == if file.bands[k].Some? then file.bands[k].value else Uniform(file.rows, file.cols, blank)
  {
    seq(|file.bands|, k requires 0 <= k < |file.bands| =>
      if file.bands[k].Some? then file.bands[k].value else Uniform(file.rows, file.cols, blank))
  }

  /** What `predict` returns: the output path and the prediction grid. */
  datatype Prediction = Prediction(path: string, raster: Grid)

  /** Lines 129-185 without plotting and the CSV dump. The raster is read
      from the "modified" name of the input (line 130); the prediction is
      written under its "predicted" name (lines 169-173). */
  method Predict(fs: FileSystem, inputTif: string, outFolder: string, fill: real, blank: Pixel,
                 estimator: seq<seq<Pixel>> -> seq<Pixel>)
    returns (res: Result<Prediction>, fs': FileSystem)
    requires FsWellFormed(fs)
    ensures var modified := Paths.AddSuffix(inputTif, "modified", outFolder);
      modified !in fs ==> res == Err(FileNotFound(modified)) && fs' == fs
    ensures var modified := Paths.AddSuffix(inputTif, "modified", outFolder);
      modified in fs && |fs[modified].bands| == 0 ==> res == Err(NoBands) && fs' == fs
    ensures var modified := Paths.AddSuffix(inputTif, "modified", outFolder);
      modified in fs && |fs[modified].bands| > 0 ==>
      var file := fs[modified];
      var data := ReadBack(file, blank);
      var preds := estimator(Sanitize(Flatten(data, file.rows, file.cols), fill));
      if |preds| != file.rows * file.cols then
        res == Err(ShapeMismatch(file.rows * file.cols, |preds|)) && fs' == fs
      else
        && res.Ok?
        && res.value.path == Paths.AddSuffix(inputTif, "predicted", outFolder)
        && IsGrid(res.value.raster, file.rows, file.cols)
        && (forall r, c :: 0 <= r < file.rows && 0 <= c < file.cols ==>
              res.value.raster[r][c] ==
                if IsFinite(data[0][r][c]) then preds[SampleIndex(file.rows, file.cols, r, c)] else NaN)
        && fs' == fs[res.value.path := StoredRaster(file.rows, file.cols, [Some(res.value.raster)])]
  {
    var modified := Paths.AddSuffix(inputTif, "modified", outFolder);
    if modified !in fs {
      return Err(FileNotFound(modified)), fs;
    }
    var file := fs[modified];
    var data := ReadBack(file, blank);
    var nBands, rows, cols := |data|, file.rows, file.cols;
    var nSamples := rows * cols;
    var flat := Flatten(data, rows, cols);
    var samples := new Pixel[nSamples, nBands]((k, b) requires 0 <= k < nSamples && 0 <= b < nBands => flat[k][b]);
    if nBands == 0 {
      return Err(NoBands), fs;
    }
    var mask := NonFiniteMask(data[0], rows, cols);
    SubstituteNonFinite(samples, fill);
    var clean := Contents(samples);
    assert clean == Sanitize(flat, fill) by {
      forall k | 0 <= k < nSamples
        ensures clean[k] == Sanitize(flat, fill)[k]
      {
      }
    }
    var predictions := estimator(clean);
    if |predictions| != nSamples {
      return Err(ShapeMismatch(nSamples, |predictions|)), fs;
    }
    var grid := Reshape(predictions, rows, cols);
    var out := new Pixel[rows, cols]((r, c) requires 0 <= r < rows && 0 <= c < cols => grid[r][c]);
    ApplyMask(out, mask);
    var raster := Contents(out);
    var outputTif := Paths.AddSuffix(inputTif, "predicted", outFolder);
    res := Ok(Prediction(outputTif, raster));
    fs' := fs[outputTif := StoredRaster(rows, cols, [Some(raster)])];
  }
}
