/** Failure-compatible wrappers: `Option` for Python's `None`-or-value returns,
    `Result` for operations that raise. */
module Wrappers {

  datatype Option<+T> = None | Some(value: T)

  /** `Failure` carries the message of the exception the source raises. */
  datatype Result<+R> = Success(value: R) | Failure(error: string)
}
