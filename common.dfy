/** Optional values and results shared by every module of the model. */
module Common {

  /** A value that may be absent: a feed field that is not there, a SQL NULL, a `fetchone()` with no row. */
  datatype Option<T> = None | Some(value: T)

  /** The outcome of an operation that may raise: `Err` carries what was raised. */
  datatype Result<T, E> = Ok(value: T) | Err(fault: E)
}
