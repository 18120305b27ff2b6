/** Option, Result and Outcome: nullable values, values-or-errors, and errors of state-changing calls. */
module Wrappers {

  datatype Option<+T> = None | Some(value: T)

  datatype Result<+T, +E> = Ok(value: T) | Err(error: E)

  /** The result of a call that changes state and either completes or raises `error`. */
  datatype Outcome<+E> = Pass | Fail(error: E)
}
