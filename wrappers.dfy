/** Optional values and error returns, standing for Go's nil pointers and
    `(value, error)` result pairs. */
module Wrappers {

  /** A value that may be absent: `None` plays the part of a nil pointer. */
  datatype Option<+T> = None | Some(value: T)

  /** The outcome of a call that returns either a value or an error. */
  datatype Result<+T, +E> = Ok(value: T) | Err(error: E)
}
