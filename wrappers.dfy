/** Outcome types shared by every layer: the exceptions of the store become values. */
module Wrappers {

  /** The .NET exceptions the store raises or lets through, one case per kind. */
  datatype Error =
    | FormatError          // FormatException: bad name, bad number text
    | EndOfStream          // EndOfStreamException: truncated record
    | Overflow             // OverflowException: negative array size, number out of range
    | ArgumentError        // ArgumentException / ArgumentOutOfRangeException
    | IndexOutOfRange      // IndexOutOfRangeException
    | KeyNotFound          // KeyNotFoundException
    | IOError              // IOException (e.g. a seek before the start of a stream)
    | NullReference        // NullReferenceException: a query's cache after it was dropped

  datatype Option<+T> = None | Some(value: T)

  datatype Result<+T> = Success(value: T) | Failure(error: Error) {
    predicate IsFailure() { Failure? }
  }

  /** An operation that returns nothing but may throw. */
  datatype Outcome = Pass | Fail(error: Error)
}
