/** The machine's unsigned integer widths, as subsets of `int`. */
module Bytes {

  /** An unsigned 8-bit value (Rust `u8`). */
  type Byte = b: int | 0 <= b < 0x100

  /** A 4-bit half byte: one of the four fields an opcode is split into. */
  type Nibble = n: int | 0 <= n < 0x10

  /** An unsigned 16-bit value (Rust `u16`). */
  type Word = w: int | 0 <= w < 0x1_0000
}
