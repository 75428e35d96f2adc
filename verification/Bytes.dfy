/** The bytes that texts, frames and registers are made of. */
module Bytes {
  type byte = b: int | 0 <= b < 0x100
}
