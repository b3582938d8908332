/** Optional values and results shared by every module of the model. */
module Options {

  /** A value that may be absent; the source's `None`. */
  datatype Option<+T> = None | Some(value: T)

  /** The outcome of an operation that the source may abort by raising an exception. */
  datatype Result<+T, +E> = Ok(value: T) | Err(error: E)
}
