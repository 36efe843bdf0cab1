/** Failure-carrying result types shared by the modules of this project. */
module Wrappers {

  /** A value that may be absent (Python's `None`, or a lookup that finds nothing). */
  datatype Option<T> = None | Some(value: T)

  /** Either a value or the error the Python code raises instead. */
  datatype Result<T, E> = Ok(value: T) | Err(error: E)
}
