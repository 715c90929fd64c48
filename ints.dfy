/**
 * The fixed-width unsigned integers of the C++ sources, and the wrapping
 * `++` on the counters that are declared with them.
 */
module Ints {
  type u8 = x: int | 0 <= x < 0x100
  type u16 = x: int | 0 <= x < 0x1_0000
  type u32 = x: int | 0 <= x < 0x1_0000_0000
  type u64 = x: int | 0 <= x < 0x1_0000_0000_0000_0000

  const Two16: int := 0x1_0000
  const Two32: int := 0x1_0000_0000
  const Two64: int := 0x1_0000_0000_0000_0000

  /** `++` on a uint64_t counter: one more, wrapping to zero after the largest value. */
  function Inc64(x: u64): (r: u64)
    ensures x < Two64 - 1 ==> r == x + 1
    ensures x == Two64 - 1 ==> r == 0
  {
    if x == Two64 - 1 then 0 else x + 1
  }

  /** `++` on a uint32_t counter. */
  function Inc32(x: u32): (r: u32)
    ensures x < Two32 - 1 ==> r == x + 1
    ensures x == Two32 - 1 ==> r == 0
  {
    if x == Two32 - 1 then 0 else x + 1
  }

  /** `+ 1` stored back into a uint16_t. */
  function Inc16(x: u16): (r: u16)
    ensures x < Two16 - 1 ==> r == x + 1
    ensures x == Two16 - 1 ==> r == 0
  {
    if x == Two16 - 1 then 0 else x + 1
  }

  /** Incrementing a wrapped uint64_t counter is wrapping the count plus one. */
  lemma Inc64Wraps(x: nat)
    ensures Inc64(x % Two64) == (x + 1) % Two64
  {
  }

  /** n increments of a uint64_t counter, one after the other. */
  function Add64(x: u64, n: nat): u64
    decreases n
  {
    if n == 0 then x else Inc64(Add64(x, n - 1))
  }

  /** n increments add n modulo 2^64. */
  lemma {:induction false} Add64Wraps(x: u64, n: nat)
    ensures Add64(x, n) == (x + n) % Two64
  {
    if n > 0 {
      Add64Wraps(x, n - 1);
      Inc64Wraps(x + n - 1);
    }
  }

  /** a increments and then b more are a + b increments. */
  lemma {:induction false} Add64Adds(x: u64, a: nat, b: nat)
    ensures Add64(Add64(x, a), b) == Add64(x, a + b)
  {
    if b > 0 {
      Add64Adds(x, a, b - 1);
    }
  }

  /** Two runs of n increments are 2n increments. */
  lemma Add64Twice(c0: u64, c1: u64, c2: u64, n: nat)
    requires c1 == Add64(c0, n) && c2 == Add64(c1, n)
    ensures c2 == Add64(c0, 2 * n)
  {
    Add64Adds(c0, n, n);
  }
}
