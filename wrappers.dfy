/** Failure-compatible result types shared by the modules of the model. */
module Wrappers {

  datatype Option<+T> = None | Some(value: T)

  /** The outcome of an operation that the program propagates with `?`. */
  datatype Result<+T, +E> = Ok(value: T) | Err(error: E)
}
