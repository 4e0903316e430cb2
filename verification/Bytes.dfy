/** Octets as bounded integers, for the components that treat a byte as a number. */
module Bytes {
  type byte = x: int | 0 <= x < 256

  const UINT16_SIZE := 0x1_0000
  const UINT32_SIZE := 0x1_0000_0000
}
