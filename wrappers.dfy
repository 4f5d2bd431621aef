/** Option and Result, used for the script's `null` returns and thrown errors. */
module Wrappers {

  /** A value that may be absent: the script's `null`. */
  datatype Option<+T> = None | Some(value: T)

  /** Either a value or the error that was thrown instead. */
  datatype Result<+R, +E> = Success(value: R) | Failure(error: E)
}
