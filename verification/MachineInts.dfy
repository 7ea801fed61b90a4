/** Integer types of the machine, and what an addition leaves of a sum. */
module MachineInts {

  type u64 = n: nat | n < 0x1_0000_0000_0000_0000
  type u128 = n: nat | n < 0x1_0000_0000_0000_0000_0000_0000_0000_0000
  type i64 = n: int | -0x8000_0000_0000_0000 <= n < 0x8000_0000_0000_0000

  /** What fetch_add, and += in a build without overflow checks, leave in a u64: the sum, wrapped. */
  function Add64(a: u64, b: u64): u64 {
    if a + b < 0x1_0000_0000_0000_0000 then a + b else a + b - 0x1_0000_0000_0000_0000
  }

  lemma Add64IsModular(a: u64, b: u64)
    ensures Add64(a, b) == (a + b) % 0x1_0000_0000_0000_0000
  {}
}
