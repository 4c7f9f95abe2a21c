/** Optional values and outcomes that may have raised, used by every module of the model. */
module Wrappers {

  /** A value that may be absent: Python's `None` versus a present value. */
  datatype Option<+T> = None | Some(value: T)

  /** A computed value, or the error that escaped the computation (an uncaught exception). */
  datatype Result<+R, +E> = Success(value: R) | Failure(error: E)
}
