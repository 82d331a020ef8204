/** Machine integers as they are read from and written to buffers. */
module Bytes {

  type byte = x: int | 0 <= x < 0x100

  type word = x: int | 0 <= x < 0x1_0000_0000
}
