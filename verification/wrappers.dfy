/** Stand-ins for Java's null references and thrown exceptions. */
module Wrappers {

  /** A reference that may be null: `None` is Java's `null`. */
  datatype Option<+T> = None | Some(value: T)

  /** A call that either returns normally or throws. */
  datatype Result<+R, +E> = Success(value: R) | Failure(error: E)
}
