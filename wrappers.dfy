/** Null-or-value and value-or-exception, as the modelled C# code uses them. */
module Wrappers {

  /** A reference or nullable value that may be null. */
  datatype Option<+T> = None | Some(value: T)

  /** The value of a computation, or the message of the exception it threw. */
  datatype Result<+T> = Success(value: T) | Failure(error: string)
}
