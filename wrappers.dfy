/** Option and the result of a step that may throw.  A thrown JavaScript error
    is represented only by its `message`, because that is all the handler ever
    reads from it. */
module Wrappers {

  datatype Option<T> = None | Some(value: T)

  datatype Result<T> = Ok(value: T) | Err(message: string)
}
