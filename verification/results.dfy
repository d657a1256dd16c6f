/** Failure-carrying values used across the model of the Conway universe. */
module Results {

  /** A value that may be absent: Python's `None`, or a numpy access that raised. */
  datatype Option<+T> = None | Some(value: T)

  /** The typed error of direct cell access (ConwayIndexError): which bound of the
      universe was exceeded, and the offending index. */
  datatype IndexError = WidthExceeded(index: int) | HeightExceeded(index: int)

  /** Either a value or the index error raised while computing it. */
  datatype Result<+T> = Ok(value: T) | Err(error: IndexError)
}
