/** Failure-compatible wrappers used across the model: a value that may be
    absent (Python's `None`), and the result of an operation that may raise. */
module Wrappers {

  /** `None` stands for Python's `None` (or a missing dictionary key). */
  datatype Option<T> = None | Some(value: T) {
    function GetOr(default: T): T {
      match this
      case Some(v) => v
      case None => default
    }
  }

  /** `Err` stands for an exception that propagates to the caller. */
  datatype Result<T, E> = Ok(value: T) | Err(error: E)
}
