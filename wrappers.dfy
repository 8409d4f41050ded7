/** The optional value and the outcome-or-error shared by the modules below. */
module Wrappers {
  /** JavaScript's `null`/`undefined`, or Java's empty `Optional`, versus a value. */
  datatype Option<T> = None | Some(value: T)

  /** A value, or the exception a Java service method throws instead. */
  datatype Result<T, E> = Ok(value: T) | Err(error: E)
}
