/** Optional and fallible results shared by the modules of this model. */
module Wrappers {

  /** A value that may be absent; `None` stands for pandas' NaN where a number is undefined. */
  datatype Option<+T> = None | Some(value: T)

  /** The outcome of an operation that pandas may abort with an exception. */
  datatype Result<+T, +E> = Ok(value: T) | Err(error: E)
}
