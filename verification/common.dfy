/** Small shared vocabulary: optional values, results carrying an error text,
    and the byte type used for file contents. */
module Common {

  datatype Option<+T> = None | Some(value: T)

  /** A computation that either produced a value or failed with the text
      Python would give as `str(e)` of the exception. */
  datatype Result<+T> = Ok(value: T) | Err(msg: string)

  type byte = b: int | 0 <= b < 256

  type Bytes = seq<byte>
}
