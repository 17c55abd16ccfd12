/** Failure-carrying values shared by the rule engine's modules. */
module Wrappers {

  /** A value that may be absent: a missing dictionary key, a failed parse. */
  datatype Option<+T> = None | Some(value: T)

  /** The outcome of a step that can raise: its value, or the error it raised. */
  datatype Result<+T, +E> = Ok(value: T) | Err(error: E)
}
