/** Option and Result values standing in for the null returns and exceptions of the repository. */
module Wrappers {

  /** `None` plays the part of a C# `null` reference result. */
  datatype Option<+T> = None | Some(value: T)

  /** `Failure` plays the part of an exception escaping an operation. */
  datatype Result<+R, +E> = Success(value: R) | Failure(error: E)
}
