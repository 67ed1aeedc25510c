/** Machine integers as they behave in a release build: `Wrap` and the moduli spell out every wrap-around. */
module Ints {

  const M32: nat := 0x1_0000_0000
  const M64: nat := 0x1_0000_0000_0000_0000

  type u32 = n: int | 0 <= n < 0x1_0000_0000
  type i32 = n: int | -0x8000_0000 <= n < 0x8000_0000

  // The i32 with the same low 32 bits.
  function Wrap(n: int): i32 {
    (n + 0x8000_0000) % M32 - 0x8000_0000
  }

  // A usize subtraction.
  function Minus64(a: int, b: int): int {
    if a < b then a - b + M64 else a - b
  }
}
