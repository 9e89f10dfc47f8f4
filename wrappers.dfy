/** Option and Result types for values the source represents with `null`,
    `undefined` or a thrown `Error`. */
module Wrappers {

  /** `None` stands for JavaScript's `null` / `undefined` results. */
  datatype Option<+T> = None | Some(value: T)

  /** `Failure` carries the message of an `Error` the source throws. */
  datatype Result<+R> = Success(value: R) | Failure(error: string)
}
