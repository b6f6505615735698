/** The optional value used for absent column indices, failed number parses and errors. */
module Wrappers {

  datatype Option<+T> = None | Some(value: T)

  /** A value or the reason it could not be produced. */
  datatype Result<+R, +E> = Ok(value: R) | Err(error: E)
}
