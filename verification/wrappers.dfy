/** Failure-carrying values used where the scripts raise an exception or
    fall back to a default. */
module Wrappers {

  datatype Option<+T> = None | Some(value: T)

  datatype Result<+T, +E> = Ok(value: T) | Err(error: E)
}
