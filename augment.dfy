/** Band augmentation (`modify_tif`, lines 78-126): the source bands are
    copied into a new raster, followed by back-filled bands holding the
    substitute constant and three uniform constant bands (lake area, percent
    developed, percent agricultural). The output is a raster declared with 12
    bands (line 95) whose bands are written one at a time by index. */
module Augment {
  import opened Outcomes
  import opened Pixels
  import Paths

  /** Line 95: the output profile declares 12 bands. */
  const DeclaredBandCount: nat := 12

  /** Line 111: the back-fill count 9 - 5, assigned after the satellite branch
      and so in force for every satellite. */
  const BackFillBands: nat := 9 - 5

  /** A raster as read from a file: its bands (each rows × cols) and its tags. */
  datatype SourceRaster = SourceRaster(rows: nat, cols: nat, bands: seq<Grid>, tags: map<string, string>) {
    predicate WellFormed() {
      IsStack(bands, rows, cols)
    }
  }

  /** A raster as it lies on disk: its declared band slots, each either
      written (Some) or never written (None), all of shape rows × cols. */
  datatype StoredRaster = StoredRaster(rows: nat, cols: nat, bands: seq<Option<Grid>>) {
    predicate WellFormed() {
      forall k :: 0 <= k < |bands| && bands[k].Some? ==> IsGrid(bands[k].value, rows, cols)
    }
  }

  /** The files the pipeline writes and reads, by path. */
  type FileSystem = map<string, StoredRaster>

  predicate FsWellFormed(fs: FileSystem) {
    forall p :: p in fs ==> fs[p].WellFormed()
  }

  /** Python's `str.startswith`. */
  predicate StartsWith(s: string, prefix: string) {
    |prefix| <= |s| && s[..|prefix|] == prefix
  }

  /** Lines 99-104: the satellite families the script accepts. */
  predicate Recognized(satellite: string) {
    StartsWith(satellite, "sentinel") || StartsWith(satellite, "landsat")
  }

  /** The band order of lines 108-120: the given bands, BackFillBands
      copies of the fill band, then the area, percent-developed and
      percent-agricultural bands. */
  function Layout(bands: seq<Grid>, fillBand: Grid, areaBand: Grid, pctDevBand: Grid, pctAgBand: Grid): (layout: seq<Grid>)
    ensures |layout| == |bands| + BackFillBands + 3
    ensures forall k :: 0 <= k < |bands| ==> layout[k] == bands[k]
    ensures forall k :: |bands| <= k < |bands| + BackFillBands ==> layout[k] == fillBand
    ensures layout[|bands| + BackFillBands] == areaBand
    ensures layout[|bands| + BackFillBands + 1] == pctDevBand
    ensures layout[|bands| + BackFillBands + 2] == pctAgBand
  {
    bands + seq(BackFillBands, _ => fillBand) + [areaBand, pctDevBand, pctAgBand]
  }

  /** The band stack `modify_tif` writes, in index order: the source bands,
      then the back-filled bands of the substitute constant, then area,
      percent developed and percent agricultural, each uniform and of the
      shape of the source bands. */
  function AugmentedLayout(src: SourceRaster, fill: real, area: real, pctDev: real, pctAg: real): (layout: seq<Grid>)
    ensures src.WellFormed() ==> IsStack(layout, src.rows, src.cols)
  {
    Layout(src.bands, Uniform(src.rows, src.cols, Finite(fill)), Uniform(src.rows, src.cols, Finite(area)),
           Uniform(src.rows, src.cols, Finite(pctDev)), Uniform(src.rows, src.cols, Finite(pctAg)))
  }

  /** Which band of the augmented raster holds what: the n source bands
      first and unchanged, then BackFillBands bands of the substitute
      constant, then area, percent developed and percent agricultural, each
      uniform over the source shape; n + 7 bands in all. */
  lemma AugmentedBands(src: SourceRaster, fill: real, area: real, pctDev: real, pctAg: real)
    requires src.WellFormed()
    ensures var layout := AugmentedLayout(src, fill, area, pctDev, pctAg);
      var n := |src.bands|;
      && |layout| == n + 7
      && (forall k :: 0 <= k < n ==> layout[k] == src.bands[k])
      && (forall k, r, c :: n <= k < n + 4 && 0 <= r < src.rows && 0 <= c < src.cols ==> layout[k][r][c] == Finite(fill))
      && layout[n + 4] == Uniform(src.rows, src.cols, Finite(area))
      && layout[n + 5] == Uniform(src.rows, src.cols, Finite(pctDev))
      && layout[n + 6] == Uniform(src.rows, src.cols, Finite(pctAg))
      && IsStack(layout, src.rows, src.cols)
  {
  }

  /** The declared band slots after the layout has been written into them as
      far as it fits: slot k holds layout band k, slots past the layout stay
      unwritten. */
  function WrittenSlots(layout: seq<Grid>): (slots: seq<Option<Grid>>)
    ensures |slots| == DeclaredBandCount
    ensures forall k :: 0 <= k < DeclaredBandCount ==>
      slots[k] == if k < |layout| then Some(layout[k]) else None
  {
    seq(DeclaredBandCount, k requires 0 <= k < DeclaredBandCount => if k < |layout| then Some(layout[k]) else None)
  }

  /** The layout fills the declared 12 bands exactly when the source has 5
      bands: with fewer the last slots stay unwritten, with more the layout
      overflows the declared count. */
  lemma DeclaredCountFitsOnlyFiveBands(src: SourceRaster, fill: real, area: real, pctDev: real, pctAg: real)
    ensures |AugmentedLayout(src, fill, area, pctDev, pctAg)| == DeclaredBandCount <==> |src.bands| == 5
    ensures |AugmentedLayout(src, fill, area, pctDev, pctAg)| <= DeclaredBandCount <==> |src.bands| <= 5
  {
  }

  /** Writing one band by its 1-based index into a raster with dst.Length declared
      bands: an index outside 1..count is refused and nothing is written. */
  method WriteBand(dst: array<Option<Grid>>, band: Grid, index: int) returns (ok: bool)
    modifies dst
    ensures ok <==> 1 <= index <= dst.Length
    ensures ok ==> dst[..] == old(dst[..])[index - 1 := Some(band)]
    ensures !ok ==> dst[..] == old(dst[..])
  {
    ok := 1 <= index <= dst.Length;
    if ok {
      dst[index - 1] := Some(band);
    }
  }

  /** Lines 108-120: the three write phases into a raster of
      DeclaredBandCount bands. The first write past the declared count fails
      (band DeclaredBandCount + 1, as every earlier index fits) and leaves
      the bands written so far; otherwise all of the layout is written. */
  method WriteLayout(bands: seq<Grid>, fillBand: Grid, areaBand: Grid, pctDevBand: Grid, pctAgBand: Grid)
    returns (failed: Option<nat>, slots: seq<Option<Grid>>)
    ensures var layout := Layout(bands, fillBand, areaBand, pctDevBand, pctAgBand);
      && slots == WrittenSlots(layout)
      && failed == if |layout| <= DeclaredBandCount then None else Some(DeclaredBandCount + 1)
  {
    ghost var layout := Layout(bands, fillBand, areaBand, pctDevBand, pctAgBand);
    var n := |bands|;
    var dst := new Option<Grid>[DeclaredBandCount](_ => None);
    var ok: bool;
    // write original bands
    for i := 1 to n + 1
      invariant i <= DeclaredBandCount + 1
      invariant forall k :: 0 <= k < DeclaredBandCount ==> dst[k] == if k < i - 1 then Some(layout[k]) else None
    {
      ok := WriteBand(dst, bands[i - 1], i);
      if !ok {
        assert dst[..] == WrittenSlots(layout);
        return Some(i), dst[..];
      }
    }
    for i := n + 1 to n + 1 + BackFillBands
      invariant i <= DeclaredBandCount + 1
      invariant forall k :: 0 <= k < DeclaredBandCount ==> dst[k] == if k < i - 1 then Some(layout[k]) else None
    {
      ok := WriteBand(dst, fillBand, i);
      if !ok {
        assert dst[..] == WrittenSlots(layout);
        return Some(i), dst[..];
      }
    }
    // write additional bands
    var extra := [areaBand, pctDevBand, pctAgBand];
    for j := 0 to 3
      invariant n + BackFillBands + j <= DeclaredBandCount
      invariant forall k :: 0 <= k < DeclaredBandCount ==> dst[k] == if k < n + BackFillBands + j then Some(layout[k]) else None
    {
      ok := WriteBand(dst, extra[j], n + BackFillBands + j + 1);
      if !ok {
        assert dst[..] == WrittenSlots(layout);
        return Some(n + BackFillBands + j + 1), dst[..];
      }
    }
    assert dst[..] == WrittenSlots(layout);
    failed, slots := None, dst[..];
  }

  /** Lines 78-126. Errors are raised in the script's order: a missing
      "satellite" tag (line 85), a raster without bands (line 89), an
      unrecognised satellite (line 104), and a band index past the declared
      count while writing (lines 108-120). Once the output file has been
      opened (line 106) it is left in the file system whether or not every
      write succeeded. */
  method ModifyTif(fs: FileSystem, inputTif: string, outFolder: string, src: SourceRaster,
                   fill: real, area: real, pctDev: real, pctAg: real)
    returns (res: Result<string>, fs': FileSystem)
    requires src.WellFormed()
    ensures "satellite" !in src.tags ==> res == Err(MissingTag("satellite")) && fs' == fs
    ensures "satellite" in src.tags && |src.bands| == 0 ==> res == Err(NoBands) && fs' == fs
    ensures "satellite" in src.tags && |src.bands| > 0 && !Recognized(src.tags["satellite"]) ==>
      res == Err(UnsupportedSatellite(src.tags["satellite"])) && fs' == fs
    ensures "satellite" in src.tags && |src.bands| > 0 && Recognized(src.tags["satellite"]) ==>
      var path := Paths.AddSuffix(inputTif, "modified", outFolder);
      var layout := AugmentedLayout(src, fill, area, pctDev, pctAg);
      && fs' == fs[path := StoredRaster(src.rows, src.cols, WrittenSlots(layout))]
      && res == if |src.bands| <= 5 then Ok(path) else Err(BandIndexOutOfRange(DeclaredBandCount + 1))
  {
    if "satellite" !in src.tags {
      return Err(MissingTag("satellite")), fs;
    }
    var satellite := src.tags["satellite"];
    if |src.bands| == 0 {
      return Err(NoBands), fs;
    }
    var fillBand := Uniform(src.rows, src.cols, Finite(fill));
    var areaBand := Uniform(src.rows, src.cols, Finite(area));
    var pctDevBand := Uniform(src.rows, src.cols, Finite(pctDev));
    var pctAgBand := Uniform(src.rows, src.cols, Finite(pctAg));
    var path := Paths.AddSuffix(inputTif, "modified", outFolder);
    var bandsToFill: nat;
    if StartsWith(satellite, "sentinel") {
      bandsToFill := 0;
    } else if StartsWith(satellite, "landsat") {
      bandsToFill := 9 - 5;
    } else {
      return Err(UnsupportedSatellite(satellite)), fs;
    }
    // line 111 resets bandsToFill to 9 - 5 before any band is written;
    // WriteLayout writes BackFillBands fill bands whatever the branch chose
    var failed, slots := WriteLayout(src.bands, fillBand, areaBand, pctDevBand, pctAgBand);
    fs' := fs[path := StoredRaster(src.rows, src.cols, slots)];
    res := if failed.Some? then Err(BandIndexOutOfRange(failed.value)) else Ok(path);
  }

  /** Writing an augmented raster keeps every file in the file system well formed. */
  lemma ModifiedFileWellFormed(fs: FileSystem, path: string, src: SourceRaster, fill: real, area: real, pctDev: real, pctAg: real)
    requires FsWellFormed(fs) && src.WellFormed()
    ensures FsWellFormed(fs[path := StoredRaster(src.rows, src.cols, WrittenSlots(AugmentedLayout(src, fill, area, pctDev, pctAg)))])
  {
    var layout := AugmentedLayout(src, fill, area, pctDev, pctAg);
    assert StoredRaster(src.rows, src.cols, WrittenSlots(layout)).WellFormed();
  }
}
