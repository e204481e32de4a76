/** A nullable value and a value-or-error: PHP's `null` becomes `None`,
    and an exception becomes a `Failure`. */
module Wrappers {

  /** A value that may be absent (a nullable PHP argument or property). */
  datatype Option<+T> = None | Some(value: T)

  /** Either a computed value or the error the PHP code would throw. */
  datatype Result<+R, +E> = Success(value: R) | Failure(error: E)
}
