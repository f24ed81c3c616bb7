/** The octets and the 32-bit words of the machine. */
module Machine {
  const TWO32 := 0x1_0000_0000

  type byte = x: int | 0 <= x < 0x100

  type word = bv32
}
