/** Bytes on a wire or a pipe. */
module Octets {
  type byte = b: int | 0 <= b < 256
  type Bytes = seq<byte>
}
