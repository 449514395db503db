/** Optional values and success/failure outcomes, standing in for Python's
    `None` and for exceptions that abort a run. */
module Wrappers {

  datatype Option<+T> = None | Some(value: T)

  datatype Result<+R, +E> = Success(value: R) | Failure(error: E)
}
