/** Fixed-width Rust integers over Dafny's unbounded `int`. Overflow is
    never silent here: every operation that can leave the range says so. */
module MachineInt {
  import opened Wrappers

  const U32_MAX: int := 0xFFFF_FFFF
  const I32_MIN: int := -0x8000_0000
  const I32_MAX: int := 0x7FFF_FFFF
  const I64_MAX: int := 0x7FFF_FFFF_FFFF_FFFF
  const TWO_TO_32: int := 0x1_0000_0000

  type U32 = x: int | 0 <= x <= U32_MAX
  type I32 = x: int | I32_MIN <= x <= I32_MAX

  /** `a + b` on `u32` with overflow checks. */
  function CheckedAdd(a: U32, b: U32): Option<U32> {
    if a + b <= U32_MAX then Some(a + b) else None
  }

  /** `a - b` on `u32` with overflow checks. */
  function CheckedSub(a: U32, b: U32): Option<U32> {
    if a >= b then Some(a - b) else None
  }

  /** `a * b` on `u32` with overflow checks. */
  function CheckedMul(a: U32, b: U32): Option<U32> {
    if a * b <= U32_MAX then Some(a * b) else None
  }

  /** `u32::saturating_sub`. */
  function SaturatingSub(a: U32, b: U32): U32 {
    if a >= b then a - b else 0
  }

  /** `a - b` on `u32` as a build without overflow checks computes it. */
  function WrappingSub(a: U32, b: U32): U32 {
    (a - b) % TWO_TO_32
  }

  /** `Ord::min` on `u32`. */
  function Min(a: U32, b: U32): U32 {
    if a <= b then a else b
  }

  /** An `as u32` cast from a wider integer keeps the low 32 bits; on a
      two's-complement value that is the Euclidean remainder mod 2^32. */
  function TruncateToU32(n: int): U32 {
    n % TWO_TO_32
  }
}
