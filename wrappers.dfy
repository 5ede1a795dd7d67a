/** Success/failure results for operations that raise errors in the source. */
module Wrappers {

  datatype Result<+T, +E> = Success(value: T) | Failure(error: E)
}
