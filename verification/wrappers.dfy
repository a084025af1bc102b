/** Failure-carrying result types shared by the whole model: Python's `None`
    and raised exceptions become explicit values here. */
module Wrappers {

  datatype Option<+T> = None | Some(value: T)

  datatype Result<+R, +E> = Success(value: R) | Failure(error: E)
}
