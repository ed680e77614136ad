/** Failure-compatible wrappers used across the model: `Option` for the
    source's "npos"/"not found"/"row dropped" outcomes and `Result` for the
    exceptions the source lets escape. */
module Wrappers {

  datatype Option<+T> = None | Some(value: T)

  datatype Result<+T, +E> = Success(value: T) | Failure(error: E)
}
