/** Failure-compatible wrappers shared by the rest of the model. */
module Wrappers {

  /** `None` stands for JavaScript's `null` wherever a value may be absent. */
  datatype Option<+T> = None | Some(value: T)

  /** `Failure` stands for a thrown exception. */
  datatype Result<+R, +E> = Success(value: R) | Failure(error: E)
}
