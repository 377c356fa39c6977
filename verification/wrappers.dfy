/** Failure-carrying datatypes shared by the other modules. */
module Wrappers {

  /** A value that may be absent (Python's `None`). */
  datatype Option<+T> = None | Some(value: T)

  /** Either a value or the error that the script would have raised instead. */
  datatype Result<+R, +E> = Ok(value: R) | Err(error: E)
}
