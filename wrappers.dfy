/** Option and Result, the failure-carrying values every other module returns. */
module Wrappers {

  /** A nullable value (`T?` in the scheduler). */
  datatype Option<+T> = None | Some(value: T)

  /** The outcome of an operation that may fail with `relayError` or an exception. */
  datatype Result<+T, +E> = Ok(value: T) | Err(error: E)
}
