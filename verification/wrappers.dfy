/** Option and Result types shared by every module, and the error kinds the
  * engine raises as C++ exceptions. */
module Wrappers {

  datatype Option<T> = None | Some(value: T) {
    predicate IsSome() { Some? }
  }

  /** The standard exception classes the engine throws. */
  datatype ErrorKind = LogicError | InvalidArgument | RuntimeError | OutOfRange

  datatype Result<T> = Ok(value: T) | Err(error: ErrorKind) {
    predicate IsOk() { Ok? }
  }
}
