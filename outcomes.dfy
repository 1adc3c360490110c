/** Optional values and error-carrying results, standing for Java's null and thrown exceptions. */
module Outcomes {

  /** A value that may be absent; `None` stands for Java's `null`. */
  datatype Option<T> = None | Some(value: T)

  /** The outcome of an operation that may throw: `Err` carries what was thrown. */
  datatype Result<T, E> = Ok(value: T) | Err(error: E)
}
