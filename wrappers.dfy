/** Optional values and error-carrying results shared by the analyzer modules. */
module Wrappers {

  /** A value that may be absent; a missing CSV cell (pandas NaN) is None. */
  datatype Option<+T> = None | Some(value: T)

  /** The outcome of an operation that can raise. */
  datatype Result<+R, +E> = Success(value: R) | Failure(error: E)
}
