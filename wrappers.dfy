/** Option and Result values shared by the rest of the model. */
module Wrappers {

  /** A value that may be absent, such as an omitted query parameter. */
  datatype Option<T> = None | Some(value: T)

  /** The outcome of an upstream request: the data it delivered, or the
      message of the error it threw. */
  datatype Result<T> = Success(value: T) | Failure(error: string)
}
