/** Values that stand for a .NET reference that may be null, and for an
    operation that either returns normally or throws. */
module Results {

  /** A string (or other reference) that may be null. */
  datatype Option<T> = None | Some(value: T)

  /** The outcome of an operation that may throw: `Err` carries the exception. */
  datatype Result<T, E> = Ok(value: T) | Err(error: E)
}
