/** Optional values and results with an error, shared by the adapter model. */
module Wrappers {

  /** An optional value: `None` plays the role of the host's `null`. */
  datatype Option<+T> = None | Some(value: T)

  /** Either a value or an error description. */
  datatype Result<+T, +E> = Success(value: T) | Failure(error: E)
}
