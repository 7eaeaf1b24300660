/** Option and Result wrappers shared by the link store and the short-URL helpers. */
module Results {

  datatype Option<+T> = None | Some(value: T)

  /** The outcome of a request handler: a value, or an error response. */
  datatype Result<+T, +E> = Ok(value: T) | Err(error: E)
}
