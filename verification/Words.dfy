/** Words of 32 bits, and the packet counter that wraps around in one. */
module Words {
  const WORD_32 := 0x1_0000_0000

  /** The sequence number that follows. */
  function Expected(previous: int): int { (previous + 1) % WORD_32 }
}
