/** What several parts of the kernel share. */
module Kernel {

  /** Registers, pointers and counters are 64 bits wide. */
  const WORD := 0x1_0000_0000_0000_0000
  /** Slots of the process table. */
  const SLOTS := 64

  function Min(a: nat, b: nat): nat { if a <= b then a else b }
}
