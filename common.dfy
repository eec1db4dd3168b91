/** Option and Result values shared by every module of the model. */
module Common {

  /** A value that may be absent: Python's `None` versus a present value. */
  datatype Option<+T> = None | Some(value: T)

  /** The outcome of an operation that either yields a value or fails with an error
      (where the application raises an exception or flashes an error message). */
  datatype Result<+T, +E> = Ok(value: T) | Err(error: E)
}
