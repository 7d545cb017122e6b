/** Optional values and results with an error, used wherever the program
    either has a value or has none (a missing cell, a missing column) or
    raises instead of returning. */
module Wrappers {

  datatype Option<+T> = None | Some(value: T)

  datatype Result<+R, +E> = Success(value: R) | Failure(error: E)
}
