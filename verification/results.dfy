/** Failure-carrying values shared by the plugin framework model. */
module Results {

  /** An optional value: `None` stands for a failed dictionary lookup. */
  datatype Option<+T> = None | Some(value: T)

  /** The value an operation returns, or the exception it raises. */
  datatype Result<+T, +E> = Ok(value: T) | Err(error: E)
}
