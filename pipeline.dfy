/** One iteration of the batch loop (lines 248-271): read the tags of the
    input raster, look up the lake's constants, augment the raster and run
    the prediction on the augmented file. Corner computation, the PNG, the
    upload and the success log are outside this module. */
module Pipeline {
  import opened Outcomes
  import opened Pixels
  import opened Augment
  import opened Inference
  import Paths

  /** The three per-lake constants `model_data.get_constants` returns
      (line 266): surface area, percent developed, percent agricultural. */
  datatype Constants = Constants(area: real, pctDev: real, pctAg: real)

  /** The file `modify_tif` leaves on disk for a recognised satellite. */
  function StoredAugmented(src: SourceRaster, consts: Constants, fill: real): (file: StoredRaster)
    requires src.WellFormed()
    ensures file.WellFormed() && |file.bands| == DeclaredBandCount
    ensures file.rows == src.rows && file.cols == src.cols
  {
    StoredRaster(src.rows, src.cols, WrittenSlots(AugmentedLayout(src, fill, consts.area, consts.pctDev, consts.pctAg)))
  }

  /** What `predict` reads back from the augmented file when every write
      fitted: the written layout, then blank bands for the declared slots
      nobody wrote; with five source bands exactly the layout. */
  lemma ReadBackAugmented(src: SourceRaster, consts: Constants, fill: real, blank: Pixel)
    requires src.WellFormed() && |src.bands| <= 5
    ensures var data := ReadBack(StoredAugmented(src, consts, fill), blank);
      var layout := AugmentedLayout(src, fill, consts.area, consts.pctDev, consts.pctAg);
      && |data| == DeclaredBandCount
      && (forall k :: 0 <= k < |layout| ==> data[k] == layout[k])
      && (forall k :: |layout| <= k < DeclaredBandCount ==> data[k] == Uniform(src.rows, src.cols, blank))
      && (|src.bands| == 5 ==> data == layout)
  {
    var data := ReadBack(StoredAugmented(src, consts, fill), blank);
    var layout := AugmentedLayout(src, fill, consts.area, consts.pctDev, consts.pctAg);
    AugmentedBands(src, fill, consts.area, consts.pctDev, consts.pctAg);
    if |src.bands| == 5 {
      assert |data| == |layout|;
      assert forall k :: 0 <= k < |layout| ==> data[k] == layout[k];
    }
  }

  /** The band the mask is taken from (line 139) is the input's first band,
      copied unchanged into the augmented file. */
  lemma MaskBandIsSourceBand(src: SourceRaster, consts: Constants, fill: real, blank: Pixel)
    requires src.WellFormed() && |src.bands| > 0
    ensures ReadBack(StoredAugmented(src, consts, fill), blank)[0] == src.bands[0]
  {
    AugmentedBands(src, fill, consts.area, consts.pctDev, consts.pctAg);
  }

  /** The model's input for every pixel: the augmented file read back,
      flattened into samples and cleaned of non-finite values. */
  function ModelInput(src: SourceRaster, consts: Constants, fill: real, blank: Pixel): (samples: seq<seq<Pixel>>)
    requires src.WellFormed()
    ensures |samples| == src.rows * src.cols
    ensures forall k :: 0 <= k < |samples| ==> |samples[k]| == DeclaredBandCount
    ensures forall k, b :: 0 <= k < |samples| && 0 <= b < |samples[k]| ==> IsFinite(samples[k][b])
  {
    var file := StoredAugmented(src, consts, fill);
    Sanitize(Flatten(ReadBack(file, blank), file.rows, file.cols), fill)
  }

  /** Lines 248-271. The checks run in the script's order: the "id",
      "date" and "scale" tags (lines 250-252), the lake's constants
      (line 266), then `modify_tif` (line 269) and `predict` (line 271).
      The augmented file is always found again by `predict`, so an item whose
      satellite is recognised and whose bands fit the declared count reaches
      the estimator; its output is NaN wherever the input's first band was
      non-finite, and the estimator's output for that pixel's sample
      everywhere else. */
  method ProcessItem(fs: FileSystem, pathTif: string, outFolder: string, src: SourceRaster,
                     lookup: map<string, Constants>, fill: real, blank: Pixel,
                     estimator: seq<seq<Pixel>> -> seq<Pixel>)
    returns (res: Result<Prediction>, fs': FileSystem)
    requires FsWellFormed(fs) && src.WellFormed()
    ensures "id" !in src.tags ==> res == Err(MissingTag("id")) && fs' == fs
    ensures "id" in src.tags && "date" !in src.tags ==> res == Err(MissingTag("date")) && fs' == fs
    ensures "id" in src.tags && "date" in src.tags && "scale" !in src.tags ==> res == Err(MissingTag("scale")) && fs' == fs
    ensures "id" in src.tags && "date" in src.tags && "scale" in src.tags && src.tags["id"] !in lookup ==>
      res == Err(UnknownLake(src.tags["id"])) && fs' == fs
    ensures "id" in src.tags && "date" in src.tags && "scale" in src.tags && src.tags["id"] in lookup ==>
      var consts := lookup[src.tags["id"]];
      var modified := Paths.AddSuffix(pathTif, "modified", outFolder);
      var written := fs[modified := StoredAugmented(src, consts, fill)];
      && ("satellite" !in src.tags ==> res == Err(MissingTag("satellite")) && fs' == fs)
      && ("satellite" in src.tags && |src.bands| == 0 ==> res == Err(NoBands) && fs' == fs)
      && ("satellite" in src.tags && |src.bands| > 0 && !Recognized(src.tags["satellite"]) ==>
            res == Err(UnsupportedSatellite(src.tags["satellite"])) && fs' == fs)
      && ("satellite" in src.tags && |src.bands| > 5 && Recognized(src.tags["satellite"]) ==>
            res == Err(BandIndexOutOfRange(DeclaredBandCount + 1)) && fs' == written)
      && ("satellite" in src.tags && 0 < |src.bands| <= 5 && Recognized(src.tags["satellite"]) ==>
            var preds := estimator(ModelInput(src, consts, fill, blank));
            if |preds| != src.rows * src.cols then
              res == Err(ShapeMismatch(src.rows * src.cols, |preds|)) && fs' == written
            else
              && res.Ok?
              && res.value.path == Paths.AddSuffix(pathTif, "predicted", outFolder)
              && IsGrid(res.value.raster, src.rows, src.cols)
              && (forall r, c :: 0 <= r < src.rows && 0 <= c < src.cols ==>
                    res.value.raster[r][c] ==
                      if IsFinite(src.bands[0][r][c]) then preds[SampleIndex(src.rows, src.cols, r, c)] else NaN)
              && fs' == written[res.value.path := StoredRaster(src.rows, src.cols, [Some(res.value.raster)])])
  {
    if "id" !in src.tags {
      return Err(MissingTag("id")), fs;
    }
    var id := src.tags["id"];
    if "date" !in src.tags {
      return Err(MissingTag("date")), fs;
    }
    if "scale" !in src.tags {
      return Err(MissingTag("scale")), fs;
    }
    if id !in lookup {
      return Err(UnknownLake(id)), fs;
    }
    var consts := lookup[id];
    var modified, fs1 := ModifyTif(fs, pathTif, outFolder, src, fill, consts.area, consts.pctDev, consts.pctAg);
    if modified.Err? {
      return Err(modified.error), fs1;
    }
    ModifiedFileWellFormed(fs, Paths.AddSuffix(pathTif, "modified", outFolder), src, fill, consts.area, consts.pctDev, consts.pctAg);
    MaskBandIsSourceBand(src, consts, fill, blank);
    res, fs' := Predict(fs1, pathTif, outFolder, fill, blank, estimator);
  }
}
