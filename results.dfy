/** Option and Result wrappers, and the errors that `dji_utils.py` can raise. */
module Results {

  datatype Option<+T> = None | Some(value: T)

  /** The ways a call can fail. Each stands for one Python exception of the source. */
  datatype Error =
    /** `img.split('/')[1]` on a path that holds no '/' (an IndexError). */
    | NoSecondSegment(path: string)
    /** "The number of dng and jpg files don't match". */
    | CountMismatch
    /** Reading the embedded XMP record failed (a missing tag or key, a malformed document). */
    | MetadataLookup(path: string)
    /** `md[column]` on a column that the filtered record lacks (a KeyError). */
    | MissingKey(key: string)
    /** `float(md[column])` on text that is not a number (a ValueError). */
    | NotNumeric(key: string, text: string)

  datatype Result<+T> = Ok(value: T) | Err(error: Error)
}
