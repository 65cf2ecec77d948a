/** The exceptions the editing engine raises, and the datatypes that carry them
    out of an operation instead of a thrown exception. */
module Errors {

  /** The .NET exception types the modelled code can raise. */
  datatype Error =
    | ArgumentOutOfRange   // System.ArgumentOutOfRangeException
    | Argument             // System.ArgumentException (List.GetRange with a range past the end)
    | ArgumentNull         // System.ArgumentNullException (encoding a null string)
    | InvalidOperation     // System.InvalidOperationException (also Enumerable.First on no match)
    | NotSupported         // System.NotSupportedException (a stream that cannot seek)
    | ObjectDisposed       // System.ObjectDisposedException (a disposed stream)
    | FileNotFound         // System.IO.FileNotFoundException (FileInfo.Length of a missing file)
    | IO                   // System.IO.IOException (seeking before the start of a stream)
    | Overflow             // System.OverflowException (an array of negative length)

  /** An operation that either completes or throws. */
  datatype Outcome = Pass | Fail(error: Error)

  /** An operation that either returns a value or throws. */
  datatype Result<+T> = Ok(value: T) | Err(error: Error)

  /** A possibly-null reference. */
  datatype Option<+T> = None | Some(value: T)
}
