/** The optional value used wherever the Java code holds a possibly-null reference
    or signals failure by an exception that the caller catches. */
module Wrappers {

  datatype Option<+T> = None | Some(value: T)

  /** A value, or the message of the exception thrown instead. */
  datatype Result<+T> = Success(value: T) | Failure(error: string)
}
