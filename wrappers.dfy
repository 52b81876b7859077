/** Optional values and results with an error, as used by the command model. */
module Wrappers {

  /** Python's `Optional[T]`: `None` or a value. */
  datatype Option<+T> = None | Some(value: T)

  /** The outcome of a command: a value, or the error the command raises. */
  datatype Result<+R, +E> = Success(value: R) | Failure(error: E)
}
