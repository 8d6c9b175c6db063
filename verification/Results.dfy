/** The outcome of an operation that may fail with an error code. */
module Results {
  datatype Result<+T> = Ok(value: T) | Err(code: string)
}
