/** The fixed-width integers of the C and Go sources. Floats are carried as their bit patterns. */
module Ints {
  type uint8 = n: int | 0 <= n < 0x100
  type int8 = n: int | -0x80 <= n < 0x80
  type uint16 = n: int | 0 <= n < 0x1_0000
  type uint32 = n: int | 0 <= n < 0x1_0000_0000
  type uint64 = n: int | 0 <= n < 0x1_0000_0000_0000_0000
  type float64 = uint64
}
