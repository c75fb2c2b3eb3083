// Option and Result values for the operations whose Python counterparts
// return None or raise.
module Wrappers {
  datatype Option<+T> = None | Some(value: T)

  datatype Result<+R, +E> = Success(value: R) | Failure(error: E)
}
