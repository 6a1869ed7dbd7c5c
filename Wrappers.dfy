/** Option and Result, used for the places where the bot's Python code either produces a
    value, returns None, or raises. */
module Wrappers {

  datatype Option<+T> = None | Some(value: T)

  datatype Result<+R, +E> = Success(value: R) | Failure(error: E)
}
