/** Failure-compatible datatypes standing for the source's nullable columns and thrown errors. */
module Options {
  datatype Option<+T> = None | Some(value: T)

  datatype Result<+T, +E> = Ok(value: T) | Err(error: E)
}
