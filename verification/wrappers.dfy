/** Failure-compatible result types shared by the stream and the deserializer. */
module Wrappers {

  /** A value or its absence; stands for Java's nullable returns (`-1`, `null`). */
  datatype Option<+T> = None | Some(value: T)

  /** The result of an operation that can fail with an error of type `E`. */
  datatype Result<+T, +E> = Success(value: T) | Failure(error: E)

  /** The result of an operation that returns nothing but can fail. */
  datatype Outcome<+E> = Pass | Fail(error: E)
}
