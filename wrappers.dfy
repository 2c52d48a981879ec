/** Option and Result, standing in for Python's `None` and for the
    `sys.exit(1)` error exits of the program. */
module Wrappers {

  datatype Option<+T> = None | Some(value: T)

  datatype Result<+R, +E> = Success(value: R) | Failure(error: E)
}
