/** Failure-carrying values used in place of the source's exceptions and `None` returns. */
module Outcomes {

  /** A value that may be absent (the source's `None`). */
  datatype Option<T> = None | Some(value: T)

  /** Either a successful value or the error the source would raise. */
  datatype Result<T, E> = Ok(value: T) | Err(error: E)
}
