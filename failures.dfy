/** The exceptions that the modelled pipeline can raise on its working path,
    and a result type that carries either a value or one of them. */
module Failures {

  /** A Python exception kind. */
  datatype Error =
    | ZeroDivisionError  // `length // len(key)` with an empty key
    | IndexError         // `[0]` on the empty list of scored key sizes

  datatype Result<+T> = Success(value: T) | Failure(error: Error)
}
