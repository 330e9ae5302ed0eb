/** The integer widths the repository's Rust code computes in. */
module Machine {
  const U32_LIMIT := 0x1_0000_0000
  const U64_LIMIT := 0x1_0000_0000_0000_0000
  const U64_MAX := U64_LIMIT - 1

  type u8 = x: int | 0 <= x < 256
  type u32 = x: int | 0 <= x < U32_LIMIT
  type u64 = x: int | 0 <= x < U64_LIMIT

  function Min(a: int, b: int): int {
    if a < b then a else b
  }

  /** `u64::saturating_add`, `u64::saturating_mul` and `u64::saturating_sub`. */
  function SatAdd(a: u64, b: u64): u64 {
    Min(a + b, U64_MAX)
  }

  function SatMul(a: nat, b: nat): u64 {
    if a * b <= U64_MAX then a * b else U64_MAX
  }

  function SatSub(a: u64, b: u64): u64 {
    if a < b then 0 else a - b
  }

  const I64_LIMIT := 0x8000_0000_0000_0000

  type i64 = x: int | -I64_LIMIT <= x < I64_LIMIT

  /** A result cut to 64 bits, two's complement. */
  function Signed(x: int): i64 {
    (x + I64_LIMIT) % U64_LIMIT - I64_LIMIT
  }
}
