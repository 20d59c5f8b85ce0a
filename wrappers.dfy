/** Absent values and success/failure results, used for JavaScript's
    `undefined`/`null` and for thrown errors. */
module Wrappers {

  /** `None` stands for `undefined` (and for SQL `NULL` in stored rows). */
  datatype Option<+T> = None | Some(value: T)

  /** The outcome of a call that returns a value or throws `error`. */
  datatype Result<+R, +E> = Success(value: R) | Failure(error: E)

  /** The outcome of a call that returns nothing or throws `error`. */
  datatype Outcome<+E> = Pass | Fail(error: E)
}
