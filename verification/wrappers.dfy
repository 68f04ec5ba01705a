/** Option and Result values for the places where the source returns
    `undefined`/`null` or throws. */
module Wrappers {

  datatype Option<+T> = None | Some(value: T)

  /** `Failure` carries the message of the error the source throws. */
  datatype Result<+R> = Success(value: R) | Failure(error: string)
}
