/** Option, Result and Outcome: the JavaScript values `null`/`undefined`, a returned value and a thrown
    error, as datatypes. */
module Wrappers {

  datatype Option<+T> = None | Some(value: T)

  datatype Result<+R, +E> = Success(value: R) | Failure(error: E)

  /** The settlement of a promise that resolves to nothing useful: Pass, or Fail with the thrown error. */
  datatype Outcome<+E> = Pass | Fail(error: E)
}
