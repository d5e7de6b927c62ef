/** Option and Result, the failure-carrying values used throughout the model.
    A `bot.exit(...)` of the source becomes a `Failure` carrying the reason. */
module Wrappers {

  datatype Option<+T> = None | Some(value: T)

  datatype Result<+R, +E> = Success(value: R) | Failure(error: E)
}
