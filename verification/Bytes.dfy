/** Shared by the two directions of the UART driver. */
module Bytes {
  type Byte = x: int | 0 <= x < 256
}
