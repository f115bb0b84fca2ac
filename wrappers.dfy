/** Option and Result, used wherever the source returns None or raises. */
module Wrappers {

  datatype Option<+T> = None | Some(value: T)

  /** The outcome of a computation that may raise; `Err` carries the exception's message. */
  datatype Result<+T> = Ok(value: T) | Err(message: string)
}
