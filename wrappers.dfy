/** Optional values and results with an error message, for the values the
    controller keeps in nullable variables and the operations that can throw. */
module Wrappers {

  datatype Option<T> = None | Some(value: T)

  /** The outcome of a foreign call: a value, or the message of the exception
      it raised. */
  datatype Result<T> = Ok(value: T) | Err(message: string)
}
