/** Failure-carrying results shared by the pipeline codec and the activation inspector. */
module Base {

  datatype Option<+T> = None | Some(value: T)

  /** Either a value or the error the Python code would raise. */
  datatype Result<+T, +E> = Ok(value: T) | Err(error: E)
}
