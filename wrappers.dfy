// Plain option and result types, used for Python's `None` and for raised exceptions.
module Wrappers {

  datatype Option<T> = None | Some(value: T)

  datatype Result<T, E> = Success(value: T) | Failure(error: E)
}
