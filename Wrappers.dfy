/** Option and Result, used for the source's NaN results, thrown errors and `null` states. */
module Wrappers {

  datatype Option<+T> = None | Some(value: T)

  datatype Result<+R, +E> = Success(value: R) | Failure(error: E)
}
