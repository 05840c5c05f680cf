# Lake chlorophyll batch prediction: a Dafny model

This project models the core of `ml_model/lenny_fall_run_all_workbook.py`, the
script that runs a pretrained chlorophyll-a estimator over a folder of lake
rasters. For every input raster the script:

1. reads its tags ("id", "date", "scale") and looks up the lake's three
   constants (surface area, percent developed, percent agricultural);
2. writes an augmented raster (`modify_tif`). It holds the source bands,
   then four back-fill bands of the substitute constant, then three uniform
   constant bands. The augmented raster is declared with 12 bands;
3. reads the augmented raster back (`predict`). It flattens the raster into
   one sample per pixel and replaces the non-finite entries. It calls the
   estimator once on all samples and reshapes the output to the grid.
   Finally it forces NaN wherever the first band was not finite;
4. records the path in the session's success log, or in the error list if
   any step raised. Either way it goes on with the next file.

Both output files are named by `add_suffix_to_filename_at_tif_path`. It
inserts `_<suffix>` before the first dot of the input path and keeps only
the basename of the result, under the output folder.

Modules, following the script's structure:

- `Outcomes` (`outcomes.dfy`): the exceptions the script raises, as error values.
- `Pixels` (`pixels.dfy`): pixel values (`Finite(real) | NaN | PosInf | NegInf`),
  grids and uniform bands.
- `Paths` (`paths.dfy`): Python's `str.split` and `str.join` on one character,
  POSIX `os.path.basename` and `os.path.join`. It also holds the naming
  function: `SuffixedName`, `OutputName` and `AddSuffix` are defined here, and
  the lemmas below state what they do.
- `Augment` (`augment.dfy`): the band layout and `modify_tif`. Bands are written
  one at a time into an array of the 12 declared slots.
- `Inference` (`inference.dfy`): the index maps, flattening, substitution,
  reshaping and masking, and `predict`. Substitution and masking update
  two-dimensional arrays in place.
- `Pipeline` (`pipeline.dfy`): one iteration of the batch loop.
- `Session` (`session.dfy`): the batch loop. A `Ledger` object holds the
  success log text and the error paths.

The file system is a map from paths to stored rasters. A stored raster keeps,
for each declared band slot, the band written there or nothing. The estimator
is a function parameter. The per-lake constants table is a map parameter. The
substitute constant is a finite real parameter.

Behaviour of the code that the model keeps as written:

- **Back-fill count.** The satellite branch (lines 99-104) picks 0 back-fill
  bands for "sentinel" (line 100) and 9 - 5 = 4 for "landsat" (line 102). The
  comment on line 102 says Landsat has 5, not 9, bands. So a 9-band sentinel
  raster needs no back-fill and would end at 9 + 3 = 12 bands, the count
  declared at line 95. Line 111 then sets the count to 9 - 5 for every
  satellite, so every raster gets 4 back-fill bands. A 9-band sentinel
  raster therefore writes 9 + 4 + 3 bands into a file declared with 12, and
  the write of band 13 fails. The model follows the code: a source with more
  than 5 bands fails with `BandIndexOutOfRange(13)`, and the partly written
  file stays on disk.
- **Names when the path has a dot before its last `/`.** If the first dot of
  the input path lies in a directory name (input folder `./in` or `data.v2`),
  the inserted suffix is cut away together with the directories.
  The "modified" and "predicted" names are then the same path
  (`Paths.DotInFolderCollides`). The prediction therefore overwrites the
  augmented raster after reading it.
- **Fewer than 5 bands.** The last declared slots of the augmented file are
  never written. Reading the file back gives a band for every declared slot.
  The value of an unwritten band is a parameter `blank` (see Left out).

## Model

| member | source | states |
|---|---|---|
| Pixels.IsFinite | ml_model/lenny_fall_run_all_workbook.py:139 | no contract of its own; finite exactly for Finite(_), as `np.isfinite` on the first band (line 139) and on the samples (line 141); Inference.Substitute and Pipeline.ProcessItem state their results with it |
| Pixels.Uniform | ml_model/lenny_fall_run_all_workbook.py:89-92 | a band of the given shape holding v everywhere, as `np.full_like` for the constant bands (lines 89-92) and the fill bands (line 114) |
| Paths.Split | ml_model/lenny_fall_run_all_workbook.py:70 | splitting always yields at least one piece |
| Paths.SplitWithoutSeparator | ml_model/lenny_fall_run_all_workbook.py:70 | a string without the separator splits into the one piece that is the string |
| Paths.SplitAtSeparator | ml_model/lenny_fall_run_all_workbook.py:70-71 | a string holding the separator splits into the text before its first occurrence, then pieces that rejoined are the text after it |
| Paths.JoinSplit | ml_model/lenny_fall_run_all_workbook.py:70-71 | joining the pieces of a split with the same separator gives the original string back |
| Paths.SplitAtFirst | ml_model/lenny_fall_run_all_workbook.py:70-71 | the first piece is the text before the first separator, and the other pieces rejoined are the text after it; without a separator the only piece is the string |
| Paths.SplitAfterPiece | ml_model/lenny_fall_run_all_workbook.py:70 | splitting a separator-free piece, a separator and a rest gives the piece followed by the split of the rest |
| Paths.Join | ml_model/lenny_fall_run_all_workbook.py:71 | no contract of its own; JoinSplit and SplitAtFirst state that it undoes Split |
| Paths.FirstIndex | ml_model/lenny_fall_run_all_workbook.py:70 | the index found holds the character, and no earlier index does |
| Paths.Basename | ml_model/lenny_fall_run_all_workbook.py:73 | the basename holds no '/' |
| Paths.BasenameConcat | ml_model/lenny_fall_run_all_workbook.py:73 | the basename of x + y is that of y when y holds a '/', and otherwise the basename of x followed by y |
| Paths.BasenameOfPlain | ml_model/lenny_fall_run_all_workbook.py:73 | a name without '/' is its own basename |
| Paths.PathJoin | ml_model/lenny_fall_run_all_workbook.py:73 | no contract of its own (POSIX join of two components); RenamesStem, DotInFolderCollides and Session.InputPaths use it as the folder join of lines 73 and 245 |
| Paths.SuffixedName | ml_model/lenny_fall_run_all_workbook.py:70-71 | no contract of its own; InsertsBeforeFirstDot states the suffixed name through the first dot's index |
| Paths.OutputName | ml_model/lenny_fall_run_all_workbook.py:73 | no contract of its own; SuffixInBasename, SuffixWithoutDot, SuffixLostInDirectory and DotInPrefixDropsSuffix state the kept name in each case |
| Paths.AddSuffix | ml_model/lenny_fall_run_all_workbook.py:69-75 | no contract of its own; InsertsBeforeFirstDot, SuffixInBasename, SuffixLostInDirectory, RenamesStem and DotInFolderCollides describe it |
| Paths.InsertsBeforeFirstDot | ml_model/lenny_fall_run_all_workbook.py:70-71 | the suffixed name is the path up to its first dot, then "_" + suffix + ".", then the rest of the path after that dot; a path without dot gets "_" + suffix + "." at its end |
| Paths.SuffixInBasename | ml_model/lenny_fall_run_all_workbook.py:69-75 | when no '/' follows the first dot, the kept name is the basename of the part before the first dot, then "_" + suffix + ".", then everything after that dot |
| Paths.SuffixWithoutDot | ml_model/lenny_fall_run_all_workbook.py:69-75 | a path without dot keeps its basename followed by "_" + suffix + "." |
| Paths.SuffixLostInDirectory | ml_model/lenny_fall_run_all_workbook.py:69-75 | when a '/' follows the first dot, the kept name is the unchanged basename of the input, whatever the suffix |
| Paths.FirstIndexConcat | ml_model/lenny_fall_run_all_workbook.py:70 | the first occurrence in x + y is the one in x when x holds the character |
| Paths.RenamesStem | ml_model/lenny_fall_run_all_workbook.py:69-75 | a file stem.ext whose stem has no dot and no '/' becomes stem_suffix.ext under the output folder (x.tif to x_modified.tif, a.b.tif to a_modified.b.tif) |
| Paths.SlashAfterFirstDot | ml_model/lenny_fall_run_all_workbook.py:69-75 | a path below a directory prefix that holds a dot has a '/' after its first dot |
| Paths.BasenameBelow | ml_model/lenny_fall_run_all_workbook.py:73 | the basename of a '/'-free name below a prefix that ends in '/' is the name |
| Paths.DotInPrefixDropsSuffix | ml_model/lenny_fall_run_all_workbook.py:69-75 | below a directory prefix holding a dot, the kept name is the bare file name |
| Paths.DotInFolderCollides | ml_model/lenny_fall_run_all_workbook.py:69-75 | for an input folder holding a dot, the "modified" and the "predicted" names of a file in it are both the bare name under the output folder |
| Augment.StartsWith | ml_model/lenny_fall_run_all_workbook.py:99-101 | no contract of its own; Python's startswith as a predicate on the prefix |
| Augment.Recognized | ml_model/lenny_fall_run_all_workbook.py:99-104 | no contract of its own; ModifyTif's ensures state that an unrecognised satellite raises UnsupportedSatellite and writes nothing |
| Augment.Layout | ml_model/lenny_fall_run_all_workbook.py:108-120 | the stack written, in index order: the n given bands, then 4 copies of the fill band, then area, percent developed and percent agricultural; n + 7 bands in all |
| Augment.AugmentedLayout | ml_model/lenny_fall_run_all_workbook.py:89-92 | the augmented stack of a well-formed source has every band of the source's shape |
| Augment.AugmentedBands | ml_model/lenny_fall_run_all_workbook.py:89-120 | bands 1..n are the source bands unchanged and in order; bands n+1..n+4 hold the substitute constant everywhere; bands n+5, n+6 and n+7 are uniformly area, percent developed and percent agricultural, of the source's shape |
| Augment.WrittenSlots | ml_model/lenny_fall_run_all_workbook.py:95 | 12 declared slots; slot k holds layout band k when the layout reaches it and is unwritten otherwise |
| Augment.DeclaredCountFitsOnlyFiveBands | ml_model/lenny_fall_run_all_workbook.py:95-120 | the number of bands written equals the declared 12 exactly when the source has 5 bands, and fits within it exactly when the source has at most 5 |
| Augment.WriteBand | ml_model/lenny_fall_run_all_workbook.py:109 | a write succeeds exactly for an index between 1 and the declared count, and then changes that slot only; a refused write changes nothing |
| Augment.WriteLayout | ml_model/lenny_fall_run_all_workbook.py:107-120 | the three write loops leave the slots of WrittenSlots(layout); they fail at index 13 exactly when the layout is longer than 12 |
| Augment.ModifyTif | ml_model/lenny_fall_run_all_workbook.py:78-126 | a missing satellite tag, an empty raster and an unrecognised satellite raise in that order and write nothing; a recognised satellite leaves the augmented file under the "modified" name, and the call succeeds when n <= 5 and fails at band 13 otherwise |
| Augment.ModifiedFileWellFormed | ml_model/lenny_fall_run_all_workbook.py:106-120 | adding the augmented file keeps every stored raster's bands of its declared shape |
| Inference.SampleIndex | ml_model/lenny_fall_run_all_workbook.py:136-137 | the sample index of a pixel of the grid is below rows*cols |
| Inference.PixelOf | ml_model/lenny_fall_run_all_workbook.py:158 | the pixel of a sample index lies in the grid |
| Inference.IndexBijection | ml_model/lenny_fall_run_all_workbook.py:135-137 | pixel (r, c) to sample r*cols + c and sample k to pixel (k div cols, k mod cols) are inverse to each other, both ways |
| Inference.Sample | ml_model/lenny_fall_run_all_workbook.py:137 | a sample has one feature per band |
| Inference.Flatten | ml_model/lenny_fall_run_all_workbook.py:135-137 | the sample matrix has rows*cols samples of one feature per band |
| Inference.FlattenAt | ml_model/lenny_fall_run_all_workbook.py:137 | feature b of sample r*cols + c is band b at pixel (r, c) |
| Inference.Feature | ml_model/lenny_fall_run_all_workbook.py:137 | a feature column has one entry per sample |
| Inference.Reshape | ml_model/lenny_fall_run_all_workbook.py:158 | a vector of rows*cols entries reshapes to a rows × cols grid |
| Inference.ReshapeAt | ml_model/lenny_fall_run_all_workbook.py:158 | entry k of the vector lands at (k div cols, k mod cols) |
| Inference.ReshapeRecoversBand | ml_model/lenny_fall_run_all_workbook.py:137-158 | reshaping feature b of the flattened stack gives band b back |
| Inference.FlattenRecoversVector | ml_model/lenny_fall_run_all_workbook.py:137-158 | flattening the reshaped vector gives the vector back |
| Inference.Substitute | ml_model/lenny_fall_run_all_workbook.py:141 | the result is finite; a finite entry is kept and a non-finite entry becomes the substitute constant |
| Inference.Sanitize | ml_model/lenny_fall_run_all_workbook.py:141 | every entry of the result is finite; finite entries are unchanged; non-finite entries become the substitute constant |
| Inference.SanitizeIdempotent | ml_model/lenny_fall_run_all_workbook.py:141 | substituting a second time changes nothing |
| Inference.SubstituteNonFinite | ml_model/lenny_fall_run_all_workbook.py:141 | in place on the sample array: finite entries stay, the others become the substitute constant |
| Inference.NonFiniteMask | ml_model/lenny_fall_run_all_workbook.py:139 | the mask is set exactly at the pixels where the band is not finite |
| Inference.ApplyMask | ml_model/lenny_fall_run_all_workbook.py:160 | in place on the prediction grid: masked pixels become NaN, the others are unchanged |
| Inference.ReadBack | ml_model/lenny_fall_run_all_workbook.py:131-132 | one band per declared slot, each of the file's shape: the written band, or the blank band for a slot never written |
| Inference.Predict | ml_model/lenny_fall_run_all_workbook.py:129-185 | a missing "modified" file and a file without bands raise; otherwise the estimator sees the sanitized flattening of the file; pixel (r, c) of the result is NaN if band 0 was not finite there and otherwise the prediction for sample r*cols + c; the result is stored as one band under the "predicted" name |
| Pipeline.StoredAugmented | ml_model/lenny_fall_run_all_workbook.py:106-120 | the augmented file has 12 slots of the source's shape |
| Pipeline.ReadBackAugmented | ml_model/lenny_fall_run_all_workbook.py:131-132 | for at most 5 source bands, reading the augmented file back gives the layout followed by blank bands up to 12; with exactly 5 it gives the layout |
| Pipeline.MaskBandIsSourceBand | ml_model/lenny_fall_run_all_workbook.py:139 | the band the mask is taken from is the input's first band, unchanged |
| Pipeline.ModelInput | ml_model/lenny_fall_run_all_workbook.py:135-144 | the estimator receives rows*cols samples of 12 features, all finite |
| Pipeline.ProcessItem | ml_model/lenny_fall_run_all_workbook.py:248-271 | missing "id", "date" or "scale" tags and an unknown lake raise in that order before anything is written; the satellite, empty-raster and band-count errors of modify_tif propagate; for a recognised satellite with 1 to 5 bands, predict always finds the augmented file, and the result is NaN wherever the input's first band is not finite, and the estimator's output for that pixel's sample everywhere else |
| Session.InputPaths | ml_model/lenny_fall_run_all_workbook.py:244-245 | the i-th visited path is the i-th name joined under the input folder |
| Session.Successes | ml_model/lenny_fall_run_all_workbook.py:281-282 | at most as many successes as visited paths |
| Session.Failures | ml_model/lenny_fall_run_all_workbook.py:285-287 | at most as many failures as visited paths |
| Session.LogText | ml_model/lenny_fall_run_all_workbook.py:281-282 | no contract of its own; LogTextAppend, LogLines and Ledger.RunAll describe it as each successful path followed by a newline |
| Session.SuccessLog | ml_model/lenny_fall_run_all_workbook.py:281-282 | no contract of its own; the log as the loop writes it, one entry appended per visited file |
| Session.SuccessLogText | ml_model/lenny_fall_run_all_workbook.py:281-282 | writing the log entry by entry gives the text of the log of the successful paths |
| Session.SuccessesAppend | ml_model/lenny_fall_run_all_workbook.py:244-288 | the successes of two runs of files one after the other are those of the first followed by those of the second |
| Session.FailuresAppend | ml_model/lenny_fall_run_all_workbook.py:244-288 | the failures of two runs of files one after the other are those of the first followed by those of the second |
| Session.LogTextAppend | ml_model/lenny_fall_run_all_workbook.py:281-282 | the log text of two runs of paths is the concatenation of their texts |
| Session.FailureIsolated | ml_model/lenny_fall_run_all_workbook.py:285-288 | a failing file adds only itself to the errors, and the files before and after it are recorded as if it were absent |
| Session.PartitionCount | ml_model/lenny_fall_run_all_workbook.py:289 | successes plus errors equal the number of files visited |
| Session.PartitionMultiset | ml_model/lenny_fall_run_all_workbook.py:244-288 | successes and errors together are the visited paths, with multiplicities |
| Session.Membership | ml_model/lenny_fall_run_all_workbook.py:244-288 | a path is among the successes exactly when it was visited and succeeded, and among the errors exactly when it was visited and raised |
| Session.LogLines | ml_model/lenny_fall_run_all_workbook.py:281-282 | splitting the log text at newlines gives the paths back, then an empty last piece, when no path holds a newline |
| Session.Ledger.constructor | ml_model/lenny_fall_run_all_workbook.py:66 | the error list and the log start empty |
| Session.Ledger.Record | ml_model/lenny_fall_run_all_workbook.py:281-287 | a success appends the path and a newline to the log, and a failure appends the path to the errors; the other record is unchanged |
| Session.Ledger.RunAll | ml_model/lenny_fall_run_all_workbook.py:244-288 | after the loop the log has gained the text of the successful paths and the errors the failed paths, each in visiting order |

## Left out

- Raster I/O: opening, reading and writing rasters, the profile, tag copying (line 174), transform and CRS (lines 122-123). A map from paths to stored rasters stands in for the disk.
- Opening a missing input raster (line 248): the input raster is a parameter.
- Casting to the raster's data type, both for the constant and fill bands (lines 89-92, 114) and for the predictions written with the source profile's dtype (lines 171-173): values are exact reals.
- The estimator's internals and the model training imports (lines 29-34): the estimator is an arbitrary function parameter.
- Corner computation with the affine transform and `pyproj` (lines 254-262): floating-point library work.
- `save_png` and all plotting (lines 176-183, 188-214): user interface.
- The non-production CSV dump and the prediction statistics (lines 146-153, 162-166): diagnostics from library code.
- `upload_spatial_map` (lines 217-242, 279): database I/O and date parsing.
- The environment set-up (lines 1-65): session id, directory listing and creation, environment flags. Also the `tqdm` progress bar (line 244) and `gc.collect` (line 284), which do not change what is recorded.
- The exact text of the JSON error file (lines 292-293): library escaping; the model keeps the error paths in order.
- `model_data.get_constants` and `NAN_SUBSTITUTE_CONSANT` are not part of this model. The constants table is a map keyed by the id tag, and the substitute constant is a parameter.
- Pipeline.ProcessItem: does not model the `int()` conversion of the id tag (line 250) or its failure on non-numeric text. The lookup is keyed by the tag's text.
- Inference.ReadBack: what an unwritten declared band holds on disk is the parameter `blank`, not a value fixed by the raster format.
- Augment.WriteBand: a write past the declared count is modelled as an error that writes nothing. The library's exact exception is not modelled.
- Inference.Predict: the ShapeMismatch error stands for a failing reshape when the estimator returns the wrong number of predictions. The script relies on the estimator to return one per sample.
- Session.Ledger.RunAll: each item's outcome is an oracle over its path. The model does not connect the oracle to Pipeline.ProcessItem or to the state of the file system.
