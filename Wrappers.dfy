/** Option and Result, the two failure-carrying datatypes the model uses in
    place of `null` and of thrown exceptions. */
module Wrappers {

  /** `None` stands for a .NET `null` reference. */
  datatype Option<+T> = None | Some(value: T)

  /** `Err` stands for an exception that leaves the operation. */
  datatype Result<+T, +E> = Ok(value: T) | Err(error: E)
}
