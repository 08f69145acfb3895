/** The failure-carrying datatypes shared by the other modules. */
module Wrappers {

  /** A value that may be absent. */
  datatype Option<+T> = None | Some(value: T)

  /** A success value or an error value. */
  datatype Result<+T, +E> = Ok(value: T) | Err(error: E)
}
