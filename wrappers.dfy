/** Plain `Option` and `Result` datatypes for the source's optional values and fallible returns. */
module Wrappers {
  datatype Option<+T> = None | Some(value: T)

  datatype Result<+T, +E> = Success(value: T) | Failure(error: E)
}
