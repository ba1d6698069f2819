/** Failure-carrying datatypes shared by the model. */
module Wrappers {

  /** A value that may be absent; Python's `None` versus a present value. */
  datatype Option<+T> = None | Some(value: T)

  /** Either a computed value or the exception the source would raise. */
  datatype Result<+T, +E> = Ok(value: T) | Err(error: E)
}
