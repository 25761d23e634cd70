/**
 * The optional value used for a missing XML text, a missing header and a
 * failed parse, and the result of a step that may raise.
 */
module Wrappers {

  datatype Option<+T> = None | Some(value: T)

  datatype Result<+T, +E> = Ok(value: T) | Err(error: E)
}
