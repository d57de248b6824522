/** The Option and Result datatypes used across the model. */
module Wrappers {

  /** A value that may be absent (Python's `-1` from `str.find`, a regex that did not match). */
  datatype Option<+T> = None | Some(value: T)

  /** A value or the error a Python expression would raise instead. */
  datatype Result<+R, +E> = Success(value: R) | Failure(error: E)
}
