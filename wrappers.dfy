/** Option and Result, the two failure-carrying shapes the model uses:
    Option for values that may be missing (a NaT date, an absent file),
    Result for operations that raise in the source. */
module Wrappers {

  datatype Option<+T> = None | Some(value: T)

  datatype Result<+R, +E> = Success(value: R) | Failure(error: E)
}
