/** The outcome of an operation that the C++ code reports through an exception or a std::optional. */
module Wrappers {

  datatype Option<+T> = None | Some(value: T)

  datatype Result<+T> = Success(value: T) | Failure(error: string)
}
