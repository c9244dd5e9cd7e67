/** Option and Result: the nullable Java references and the thrown exceptions of
    the service, as values. */
module Wrappers {

  /** A Java reference that may be `null`. */
  datatype Option<+T> = None | Some(value: T)

  /** A value, or the message of the exception thrown instead of returning one. */
  datatype Result<+T> = Ok(value: T) | Err(message: string)
}
