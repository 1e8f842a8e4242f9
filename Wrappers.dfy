/** Optional values and results with an error message, used for Java's null and for
    exceptions that a method throws instead of returning. */
module Wrappers {

  datatype Option<+T> = None | Some(value: T)

  datatype Result<+T, +E> = Success(value: T) | Failure(error: E)
}
