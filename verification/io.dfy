/**
  The slice of `std::io` the socket speaks: the error kinds it raises and its
  result type. A Rust panic of the decoder is an outcome of its own, so that
  no input is excluded by a precondition.
 */
module Io {

  /** The `io::ErrorKind`s `CanSocket` constructs. */
  datatype ErrorKind =
    | WouldBlock    // no decodable line yet, or a line this engine ignores
    | InvalidData   // a `t` line whose data digits do not decode
    | InvalidInput  // more than eight payload bytes handed to `write`

  /** `io::Result<T>`, plus the panic of an arithmetic underflow or an
      out-of-range index. */
  datatype IoResult<+T> = Success(value: T) | Failure(kind: ErrorKind) | Panic
}
