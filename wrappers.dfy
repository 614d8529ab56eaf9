/** Option and Result, the two wrappers the model uses for Go's nil values
    and for Go's (value, error) pairs. */
module Wrappers {

  /** `None` stands for Go's nil (an unset slice or pointer). */
  datatype Option<+T> = None | Some(value: T)

  /** A Go pair (v, err): `Success(v)` when err is nil, `Failure(err)` otherwise. */
  datatype Result<+R, +E> = Success(value: R) | Failure(error: E)
}
