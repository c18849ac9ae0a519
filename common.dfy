/** Small shared vocabulary: optional values, results with an error, and bytes. */
module Common {

  /** A value that may be absent, like Python's `None`. */
  datatype Option<+T> = None | Some(value: T)

  /** The outcome of an operation that can raise: a value, or the error raised. */
  datatype Result<+T, +E> = Ok(value: T) | Err(error: E)

  /** An 8-bit unsigned value, as held by a Python `bytearray` or a D-Bus byte. */
  type byte = b: int | 0 <= b < 256
}
