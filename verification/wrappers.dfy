/** Failure-compatible wrappers shared by the model: Option stands for Go's nil
    pointer results and Result for a value-or-error pair. */
module Wrappers {

  /** `None` is Go's nil; `Some(v)` a non-nil result. */
  datatype Option<+T> = None | Some(value: T)

  /** Either a value or the error the Go code would return (or panic with). */
  datatype Result<+R, +E> = Success(value: R) | Failure(error: E)
}
