/** Failure-carrying values used throughout the model: an optional value, and a
    result that is either a value or an error message (the model's stand-in for a
    thrown `Error`). */
module Wrappers {

  datatype Option<+T> = None | Some(value: T)

  datatype Result<+T> = Ok(value: T) | Err(error: string)
}
