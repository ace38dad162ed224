/** The source's integer widths. */
module Integers {

  type U16 = x: int | 0 <= x < 0x1_0000
  type U32 = x: int | 0 <= x < 0x1_0000_0000
  type U64 = x: int | 0 <= x < 0x1_0000_0000_0000_0000
  type Usize = U64
  type I64 = x: int | -0x8000_0000_0000_0000 <= x < 0x8000_0000_0000_0000

  const U16_MAX: U16 := 0xFFFF
  const U32_MAX: U32 := 0xFFFF_FFFF

  type Byte = x: int | 0 <= x < 256
  type Bytes = seq<Byte>
}
