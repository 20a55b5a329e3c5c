/** The result shapes shared by the model. */
module Wrappers {

  datatype Option<+T> = None | Some(value: T)

  datatype Result<+T, +E> = Ok(value: T) | Err(error: E)

  /** A Go call returns a value, returns an error, or panics. */
  datatype Outcome<+T, +E> = Done(value: T) | Failed(error: E) | Panicked
}
