/** Option, Result and Outcome: the error-carrying values that stand for PHP's
    nullable results and thrown exceptions throughout the model. */
module Wrappers {

  datatype Option<+T> = None | Some(value: T)

  datatype Result<+R, +E> = Success(value: R) | Failure(error: E)

  /** The result of an operation that returns nothing (a PHP `void` method) or throws. */
  datatype Outcome<+E> = Pass | Fail(error: E)
}
