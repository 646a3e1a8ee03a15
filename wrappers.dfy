/** Failure-carrying results: a thrown exception or a rejected promise becomes `Failure`. */
module Wrappers {
  datatype Result<+T, +E> = Success(value: T) | Failure(error: E)
}
