/**
 * Failure-carrying values shared by the modules of the model: a missing
 * value (Python's `None`, or "not found") and an operation that either
 * produces a value or raises.
 */
module Common {

  datatype Option<+T> = None | Some(value: T)

  datatype Result<+T, +E> = Success(value: T) | Failure(error: E)
}
