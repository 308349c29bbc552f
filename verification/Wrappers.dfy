/** Optional values, and values that a failure can take the place of. */
module Wrappers {
  datatype Option<T> = None | Some(value: T)

  datatype Result<T> = Ok(value: T) | Failure
}
