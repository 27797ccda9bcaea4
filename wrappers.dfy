/** Option and Result: the "nothing" and "thrown error" outcomes of the service. */
module Wrappers {

  datatype Option<+T> = None | Some(value: T)

  /** `Err` stands for an exception the service throws to its caller. */
  datatype Result<+T, +E> = Ok(value: T) | Err(error: E)
}
