/** Optional values (Java's nullable references) and results with an error side. */
module Wrappers {

  /** A nullable reference: `None` stands for Java's `null`. */
  datatype Option<+T> = None | Some(value: T)

  /** The outcome of a check that either produces a value or reports what was wrong. */
  datatype Result<+R, +E> = Success(value: R) | Failure(error: E)
}
