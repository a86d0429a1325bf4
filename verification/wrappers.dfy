/** Option, Result and the exception kinds of the core. */
module Wrappers {

  /** A reference that may be null: `None` stands for C#'s `null`. */
  datatype Option<+T> = None | Some(value: T)

  /** The outcome of an operation that either returns a value or throws. */
  datatype Result<+T, +E> = Success(value: T) | Failure(error: E)

  /** The two exception kinds thrown by the core, each built from the `nameof` of the offending parameter.
      `ArgumentNullException` keeps it as its parameter name; `ArgumentException` keeps it as its message. */
  datatype Error = ArgumentNull(paramName: string) | Argument(message: string)
}
