/** Swift's optional value, and a value-or-fault result for calls that can
    fault, shared by the animation and banner modules. */
module Wrappers {

  /** An optional value: Swift's `T?`. */
  datatype Option<+T> = None | Some(value: T)

  /** A value or the fault that replaced it. */
  datatype Result<+R, +E> = Success(value: R) | Failure(error: E)
}
