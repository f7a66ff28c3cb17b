/** Failure-carrying result types shared by the modules of the model. */
module Wrappers {

  datatype Option<+T> = None | Some(value: T)

  /** A computation that either produced a value or raised (Python `ValueError` and friends). */
  datatype Result<+T> = Success(value: T) | Failure(error: string)
}
