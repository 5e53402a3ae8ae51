/** Small failure-carrying datatypes shared by the other modules. */
module Wrappers {

  /** An optional value: `None` stands for JavaScript's `undefined`. */
  datatype Option<+T> = None | Some(value: T)

  /** The outcome of an operation that can fail (a rejected promise or a thrown error). */
  datatype Result<+T, +E> = Success(value: T) | Failure(error: E)
}
