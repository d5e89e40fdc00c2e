/** Failure-carrying result types shared by the modules of the backup engine model. */
module Wrappers {

  /** An optional value: the model's stand-in for JavaScript's `undefined`. */
  datatype Option<+T> = None | Some(value: T)

  /** Either a computed value or the error the code would throw. */
  datatype Result<+R, +E> = Success(value: R) | Failure(error: E)
}
