/** Failure-carrying results shared by the models of the four programs. */
module Wrappers {

  /** The value a computation produced, or the error it stopped with. */
  datatype Result<+T, +E> = Ok(value: T) | Err(error: E)

  datatype Option<+T> = None | Some(value: T)
}
