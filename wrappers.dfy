/** Optional values and success-or-error results, shared by the other modules. */
module Wrappers {

  /** An optional value: a Mongoose field that may be unset, or a request field that may be absent. */
  datatype Option<+T> = None | Some(value: T)

  /** The value of an operation that may fail. */
  datatype Result<+T, +E> = Ok(value: T) | Err(error: E)

  /** The outcome of an operation that changes state and may fail. */
  datatype Outcome<+E> = Pass | Fail(error: E)
}
