/** Failure-carrying result types shared by the referral and login models. */
module Wrappers {

  datatype Option<+T> = None | Some(value: T)

  /** A value, or the exception a database helper threw instead of returning. */
  datatype Result<+R, +E> = Success(value: R) | Failure(error: E)
}
