/** The fixed-width numbers of the original programs. */
module Widths {

  type byte = x: int | 0 <= x < 256

  type uint16 = x: int | 0 <= x < 0x1_0000

  type uint32 = x: int | 0 <= x < 0x1_0000_0000

  type uint64 = x: int | 0 <= x < 0x1_0000_0000_0000_0000

  newtype int64 = x: int | -0x8000_0000_0000_0000 <= x < 0x8000_0000_0000_0000

  function Zeros(n: nat): seq<byte> { seq(n, _ => 0) }
}
