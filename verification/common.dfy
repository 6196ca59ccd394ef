/** Small wrappers shared by every module of the model. */
module Common {

  /** A value that may be absent: JavaScript's `null` / `undefined`. */
  datatype Option<T> = None | Some(value: T)

  /** The result of an operation that can throw: `Err` carries the message. */
  datatype Outcome<T> = Ok(value: T) | Err(message: string)
}
