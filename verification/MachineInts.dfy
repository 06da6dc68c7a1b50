/** Unsigned machine integers. */
module MachineInts {
  const U64_SIZE: nat := 0x1_0000_0000_0000_0000

  type U8 = x: nat | x < 0x100
  type U32 = x: nat | x < 0x1_0000_0000
  type U64 = x: nat | x < U64_SIZE
}
