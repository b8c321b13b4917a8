/** Optional values and the (value, error) pair that every RPC handler returns. */
module Wrappers {

  datatype Option<+T> = None | Some(value: T)

  /** A Go `(resp, err)` pair in which exactly one side is meaningful. */
  datatype Result<+T, +E> = Success(value: T) | Failure(error: E)
}
