/** Byte buffers (`Uint8Array`). */
module Buffers {
  newtype byte = x: int | 0 <= x < 256

  type Bytes = seq<byte>
}
