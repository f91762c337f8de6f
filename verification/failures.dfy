/** Outcomes shared by every part of the converter: the optional values the
    script passes around, the exceptions it raises, and a failure-compatible
    Result so that `:-` propagates the first exception raised. */
module Failures {

  datatype Option<+T> = None | Some(value: T)

  /** The external pipeline stages of convert_ozi_map, in the order they run. */
  datatype Stage = Translate | Warp | Tile | Palette | ListGeo | GeoTifCp

  /** The five temporary-file names tmp1 .. tmp5. */
  datatype Temp = Tmp1 | Tmp2 | Tmp3 | Tmp4 | Tmp5

  /** Every exception the conversion can end with. */
  datatype Error =
    | MissingImageFile(path: string)       // "can't find img file"
    | FieldIndexError(index: nat)          // d[index] read past the end of a record
    | UnpackError(tokens: nat)             // `lon, lat = line.split()` on a line with tokens != 2
    | PopFromEmpty                         // more projector output lines than points
    | ProjFailed(code: int)                // the projector exited with a nonzero status
    | StageFailed(stage: Stage, code: int) // a pipeline tool exited with a nonzero status
    | NoneArgument(stage: Stage)           // Popen given an argument vector holding None
    | UnboundName(temp: Temp)              // NameError in the outer finally block

  datatype Result<+T> = Ok(value: T) | Fail(error: Error) {

    predicate IsFailure() {
      Fail?
    }

    function PropagateFailure<U>(): Result<U>
      requires Fail?
    {
      Fail(error)
    }

    function Extract(): T
      requires Ok?
    {
      value
    }
  }
}
