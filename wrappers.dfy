/** Optional values and results shared by the modules. */
module Wrappers {

  /** A value that may be absent: Foundation's optional results (`URL(string:)`, a dictionary lookup). */
  datatype Option<+T> = None | Some(value: T)

  /** The outcome of a Swift function that `throws`. The source only ever throws an
      untyped `NSError` whose `domain` carries the message shown to the user. */
  datatype Status = Ok | Err(domain: string)

  /** A value or the description of the error that prevented it (used for file reads). */
  datatype Result<+R> = Success(value: R) | Failure(description: string)
}
