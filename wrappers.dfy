/** Failure-carrying result types shared by every module of the model. */
module Wrappers {

  /** A value that may be absent (Python's `Optional`). */
  datatype Option<+T> = None | Some(value: T)

  /** The value of a computation or the message of the error it reported. */
  datatype Result<+T> = Ok(value: T) | Err(message: string)
}
