/** Option and Result, for the source's nullable values and thrown errors; bytes. */
module Wrappers {

  datatype Option<+T> = None | Some(value: T)
  {
    /** `value ?? default`. */
    function GetOr(default: T): T {
      match this
      case Some(v) => v
      case None => default
    }
  }

  type Byte = b: int | 0 <= b < 256

  datatype Result<+T, +E> = Ok(value: T) | Err(error: E)
}
