/** Shared value types: nullable values, results of calls that can throw,
    the exceptions the provider raises, and bytes. */
module Common {

  /** A .NET reference that may be null. */
  datatype Option<+T> = None | Some(value: T)

  /** The exceptions the provider's code throws or lets escape. */
  datatype Error =
    | ArgumentNull(param: string)      // ArgumentNullException
    | InvalidOperation(field: string)  // InvalidOperationException naming the missing field
    | NotSupported                     // NotSupportedException
    | UnauthorizedAccess               // UnauthorizedAccessException
    | FileBusy                         // IOException (file in use, or target already there)
    | FileMissing                      // FileNotFoundException
    | InvalidPath                      // ArgumentException (empty path)
    | NullReference                    // NullReferenceException
    | WebFailure                       // WebException
    | MalformedDocument                // XDocument.Load failed to parse the file
    | MalformedVersion                 // System.Version failed to parse the attribute

  /** Outcome of a call that either returns a value or throws. */
  datatype Result<+T> = Ok(value: T) | Err(error: Error)

  newtype byte = x: int | 0 <= x < 256
}
