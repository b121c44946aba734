/** Option and Result: the model's stand-ins for JavaScript's `null` and for a thrown error. */
module Wrappers {

  /** A value that may be absent; `None` plays the role of `null`. */
  datatype Option<+T> = None | Some(value: T)

  /** Either a value or the error that ended the computation. */
  datatype Result<+T, +E> = Ok(value: T) | Err(error: E)
}
