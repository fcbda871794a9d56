/** Option and Result values used where the script has an optional argument
    or raises an exception. */
module Results {

  /** An optional command-line value: `None` when the flag was not given. */
  datatype Option<+T> = None | Some(value: T)

  /** The outcome of an operation that may raise. */
  datatype Result<+T, +E> = Ok(value: T) | Err(error: E)
}
