/** The bytes the transfer protocols and the Ethernet driver move. */
module Octets {
  type byte = x: int | 0 <= x < 256

  type Bytes = seq<byte>
}
