/** Option and Result values used for nullable cells and for the error paths of the pipeline. */
module Wrappers {

  /** A value that may be absent: a null cell, a missing dictionary entry, a file that is not there. */
  datatype Option<+T> = None | Some(value: T)

  /** The outcome of an operation that can raise: its value, or the error it raises. */
  datatype Result<+R, +E> = Ok(value: R) | Err(error: E)
}
