/** Option and Result, for Go's nil pointers and error returns, and the faults a store command can meet. */
module Wrappers {
  datatype Option<+T> = None | Some(value: T)

  datatype Result<+T, +E> = Ok(value: T) | Err(error: E)

  /** A fault strikes a command before the server applies it, or after, when only the reply is lost. */
  datatype Fault = NoFault | RequestLost | ReplyLost
}
