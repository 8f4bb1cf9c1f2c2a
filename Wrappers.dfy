/** Optional values and results with an error, shared by the client and server models. */
module Wrappers {

  /** A value that may be absent (an optional TypeScript field, a Java null). */
  datatype Option<T> = None | Some(value: T)

  /** The outcome of an operation that may fail with an error instead of a value. */
  datatype Result<T, E> = Ok(value: T) | Err(error: E)
}
