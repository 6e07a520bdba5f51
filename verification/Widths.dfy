/** The sizes of the machine integers whose arithmetic the models spell out. */
module Widths {
  const UINT16_MAX: nat := 0xFFFF
  const UINT32: nat := 0x1_0000_0000
  const UINT64: nat := 0x1_0000_0000_0000_0000
}
