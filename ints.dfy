/** Fixed-width C integers that the server's bookkeeping relies on. */
module Ints {

  const U32_MODULUS: int := 0x1_0000_0000

  /** C `uint32_t` (and `uint` on the target platforms). */
  type u32 = x: int | 0 <= x < U32_MODULUS

  /** `a - b` on two `uint32_t` values: the difference wraps around modulo 2^32. */
  function WrapSub(a: u32, b: u32): (d: u32)
    ensures (b + d) % U32_MODULUS == a
    ensures a >= b ==> d == a - b
    ensures a < b ==> d == a - b + U32_MODULUS
  {
    (a - b) % U32_MODULUS
  }
}
