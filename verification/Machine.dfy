/** Fixed-width unsigned values, as integers. */
module Machine {
  type Byte = x: int | 0 <= x < 0x100

  type Word = x: int | 0 <= x < 0x1_0000_0000
}
