/** Optional values and fallible results shared by every module of the model. */
module Wrappers {

  /** A value that may be absent: Python's `None` versus a present value. */
  datatype Option<+T> = None | Some(value: T)

  /** The outcome of an operation that may fail, such as an HTTP handler raising an error. */
  datatype Result<+T, +E> = Ok(value: T) | Err(error: E)
}
