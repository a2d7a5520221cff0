/** Optional values and the outcome of an operation that may panic. */
module Wrappers {

  /** Rust's `Option<T>`. */
  datatype Option<+T> = None | Some(value: T)

  /** A value, or the panic that aborted the computation (with its message). */
  datatype Result<+T> = Ok(value: T) | Panic(message: string)
}
