/** Failure-carrying values used for the source's `null` returns and thrown errors. */
module Wrappers {

  datatype Option<+T> = None | Some(value: T)

  datatype Result<+R, +E> = Success(value: R) | Failure(error: E)

  /** A step that either completes or fails, carrying no value. */
  datatype Outcome<+E> = Pass | Fail(error: E)
}

/** Raw bytes, as held in node's `Buffer`. */
module Bytes {

  type byte = b: int | 0 <= b < 256
}
