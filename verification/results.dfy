/** Small failure-carrying datatypes shared by the calendar model. */
module Results {

  /** A value that may be absent: a missing command-line word, an empty cell. */
  datatype Option<+T> = None | Some(value: T)

  /** Either a computed value or the error that stopped the computation. */
  datatype Result<+T, +E> = Ok(value: T) | Err(error: E)
}
