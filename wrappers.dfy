/** Option and Result, as the storage helpers and the dispatcher use them. */
module Wrappers {

  /** A value that may be absent: the `*string` that `getkey` returns, or an error that may be nil. */
  datatype Option<+T> = None | Some(value: T)

  /** The outcome of a call into the backing store: a value, or the store's error text. */
  datatype Result<+T> = Ok(value: T) | Err(error: string)
}
