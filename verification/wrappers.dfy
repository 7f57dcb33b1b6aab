/** Failure-carrying datatypes used throughout the model: Python's `None`
    becomes `None`, and an exception the source raises becomes `Failure`. */
module Wrappers {

  datatype Option<+T> = None | Some(value: T)

  datatype Result<+R, +E> = Success(value: R) | Failure(error: E)
}
