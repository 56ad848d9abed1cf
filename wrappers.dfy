/** Failure-carrying values used in place of the exceptions and nulls of the modelled code. */
module Wrappers {

  datatype Option<+T> = None | Some(value: T)

  /** `Err` stands for an exception the modelled operation throws (or a `null` it returns). */
  datatype Result<+T, +E> = Ok(value: T) | Err(error: E)

  /** The .NET exception types the modelled code throws or lets through. */
  datatype Exception =
    | ArgumentError          // ArgumentException (also a duplicate dictionary key)
    | ArgumentOutOfRange     // ArgumentOutOfRangeException (also a bad list index)
    | IndexOutOfRange        // IndexOutOfRangeException
    | InvalidOperation       // InvalidOperationException
    | NullReference          // NullReferenceException
    | UnauthorizedAccess     // UnauthorizedAccessException
    | IOError                // IOException and its subclasses other than the two below
    | EndOfStream            // EndOfStreamException
    | FileNotFound           // FileNotFoundException / DirectoryNotFoundException
    | FormatError            // FormatException (also an undecodable string)
    | Overflow               // OverflowException
}
