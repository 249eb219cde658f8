/** Failure-carrying results shared by every module of the model. */
module Wrappers {

  /** A value that may be absent: JavaScript's `null`/`undefined` results. */
  datatype Option<+T> = None | Some(value: T)

  /** An operation's outcome: a value, or the error the handler answers with. */
  datatype Result<+T, +E> = Ok(value: T) | Err(error: E)
}
