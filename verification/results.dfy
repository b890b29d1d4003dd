/** Failure-compatible wrappers shared by every stage of `sandbox create`. */
module Results {

  /** A value that may be absent. */
  datatype Option<+T> = None | Some(value: T)

  /** The outcome of a stage that can stop the whole invocation. */
  datatype Result<+T, +E> = Ok(value: T) | Err(error: E)
}
