/** Option and Result, for the "infinite" stored distance and for the
    geometry helper that raises on a bad argument. */
module Wrappers {

  datatype Option<+T> = None | Some(value: T)

  datatype Result<+R, +E> = Success(value: R) | Failure(error: E)
}
