/** Absence and failure, for the source's `None` and its raised exceptions. */
module Options {

  datatype Option<+T> = None | Some(value: T)

  /** A call that returns, or raises and returns nothing. */
  datatype Result<+T> = Ok(value: T) | Raised
}
