/** Shared value types: the byte type of the source (`u8`) and the
    Option/Result wrappers that stand for Rust's `Option` and `Result`. */
module Base {

  /** An unsigned 8-bit value, as Rust's `u8`. */
  newtype u8 = x: int | 0 <= x < 256

  datatype Option<+T> = None | Some(value: T)

  datatype Result<+T, +E> = Ok(value: T) | Err(error: E)
}
