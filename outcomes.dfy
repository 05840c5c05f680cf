/** Outcomes of the pipeline's steps: the exceptions the script raises become
    values, so that every error path is modelled rather than excluded. */
module Outcomes {

  datatype Option<+T> = None | Some(value: T)

  /** The kinds of failure one item can meet on its way through the pipeline. */
  datatype Error =
    | MissingTag(key: string)                  // a required tag is absent
    | NoBands                                  // the first band of a raster without bands
    | UnsupportedSatellite(satellite: string)  // neither "sentinel" nor "landsat"
    | BandIndexOutOfRange(index: nat)          // a band written past the declared count
    | UnknownLake(id: string)                  // the constants lookup has no entry
    | FileNotFound(path: string)               // opening a raster that was never written
    | ShapeMismatch(expected: nat, actual: nat) // reshaping predictions of the wrong size

  datatype Result<+T> = Ok(value: T) | Err(error: Error)

  /** What the batch driver learns about one item: it completed, or it raised. */
  datatype Outcome = Succeeded | Failed(error: Error)
}
