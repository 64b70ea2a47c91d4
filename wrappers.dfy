/** Option and Result: the model's stand-ins for C# null references and thrown exceptions. */
module Wrappers {

  /** `None` plays the part of a C# `null` reference. */
  datatype Option<+T> = None | Some(value: T)

  /** `Failure` plays the part of an exception thrown instead of a value being returned. */
  datatype Result<+R, +E> = Success(value: R) | Failure(error: E)
}
