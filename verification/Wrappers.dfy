/** The two failure-carrying datatypes the model uses for absent values and for raised errors. */
module Wrappers {

  datatype Option<+T> = None | Some(value: T)

  /** `Err` stands for a raised exception or a returned failure; the caller decides what it rolls back. */
  datatype Result<+T, +E> = Ok(value: T) | Err(error: E)
}
