/** Option, Result and Outcome: how the model reports a missing value, an
    early process exit, or a rejected configuration instead of calling exit(). */
module Wrappers {

  datatype Option<+T> = None | Some(value: T)

  datatype Result<+R, +E> = Success(value: R) | Failure(error: E)

  datatype Outcome<+E> = Pass | Fail(error: E)
}
