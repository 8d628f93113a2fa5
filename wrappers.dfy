/** Option, and the result type used where `App.py` raises an exception. */
module Wrappers {

  datatype Option<+T> = None | Some(value: T)

  /** `Success` carries the value; `Failure` carries what the raised exception names. */
  datatype Result<+R, +E> = Success(value: R) | Failure(error: E)
}
