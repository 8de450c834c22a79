/** Bounds of the fixed-width integers of Go. */
module MachineInts {
  const TWO_31 := 0x8000_0000
  const TWO_32 := 0x1_0000_0000
  const TWO_63 := 0x8000_0000_0000_0000
  const TWO_64 := 0x1_0000_0000_0000_0000
  const MIN_INT64 := -0x8000_0000_0000_0000
}
