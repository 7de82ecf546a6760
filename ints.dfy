/** The fixed-width integers of the modelled C++ code. */
module Ints {

  const Int64Max: int := 0x7fff_ffff_ffff_ffff

  type Int64 = x: int | -Int64Max - 1 <= x <= Int64Max
  type UInt64 = x: int | 0 <= x < 0x1_0000_0000_0000_0000
}
