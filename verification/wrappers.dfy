/** Option and Result datatypes shared by the other modules: `Option` stands for a
    Go value that may be `nil`, `Result` for an operation that may end in a runtime
    fault instead of a value. */
module Wrappers {

  datatype Option<+T> = None | Some(value: T)

  datatype Result<+R, +E> = Success(value: R) | Failure(error: E)
}
