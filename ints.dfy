/**
 * The fixed-width integers of the source. The model follows a release build,
 * in which Rust's arithmetic overflow checks are off and `+`/`-` wrap around.
 */
module Ints {

  type Byte = x: int | 0 <= x < 0x100

  const U32_LIMIT: int := 0x1_0000_0000

  type U32 = x: int | 0 <= x < 0x1_0000_0000

  /** usize::MAX on a 64-bit target. */
  const USIZE_MAX: nat := 0xFFFF_FFFF_FFFF_FFFF

  /** `x + 1` on a u32. */
  function WrappingIncU32(x: U32): U32
  {
    if x == U32_LIMIT - 1 then 0 else x + 1
  }

  /** `x - 1` on a u32. */
  function WrappingDecU32(x: U32): U32
  {
    if x == 0 then U32_LIMIT - 1 else x - 1
  }

  /** `x -= 1` on a usize. */
  function WrappingDecUsize(x: nat): nat
  {
    if x == 0 then USIZE_MAX else x - 1
  }

  /** `x as u32` for a usize x: keeps the low 32 bits. */
  function TruncateU32(x: nat): U32
  {
    x % U32_LIMIT
  }
}
