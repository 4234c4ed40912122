/** Failure-carrying results for the C# exceptions and null references of the library. */
module Wrappers {

  /** A value that may be absent; `None` stands for a C# null reference. */
  datatype Option<+T> = None | Some(value: T)

  /** The result of an operation that returns a value or throws. */
  datatype Result<+T, +E> = Success(value: T) | Failure(error: E)

  /** The result of a `void` operation that returns normally or throws. */
  datatype Outcome<+E> = Pass | Fail(error: E)
}
