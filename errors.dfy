// Outcomes of operations that may throw.
//
// Dune reports failures by throwing exceptions (GridError, NotImplemented,
// IOError, OutOfMemoryError, FMatrixError).  The model returns them as values.

module Errors {

  datatype Error =
    | GridError
    | NotImplemented
    | IOError
    | OutOfMemoryError
    | FMatrixError

  datatype Option<T> = None | Some(value: T)

  datatype Result<T> = Ok(value: T) | Err(error: Error)
}
