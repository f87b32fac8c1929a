/** Datatypes and integer widths shared by every component of the model. */
module Core {

  datatype Option<+T> = None | Some(value: T)

  /** A call that either returns a value or reports one of the source's errors. */
  datatype Result<+T, +E> = Success(value: T) | Failure(error: E)

  const BYTE_LIMIT := 0x100

  /** An unsigned 8-bit integer. */
  type byte = x: int | 0 <= x < BYTE_LIMIT

  const WORD_LIMIT := 0x1_0000

  /** An unsigned 16-bit integer. */
  type word = x: int | 0 <= x < WORD_LIMIT

  /** The little-endian 16-bit integer whose low byte comes first. */
  function LittleEndian16(low: byte, high: byte): word {
    low + BYTE_LIMIT * high
  }
}
