/** Failure-carrying values and the machine-integer ranges the analyzer works in. */
module Basics {

  datatype Option<+T> = None | Some(value: T)

  datatype Result<+T, +E> = Success(value: T) | Failure(error: E)

  const U32_LIMIT: nat := 0x1_0000_0000
  const USIZE_MAX: nat := 0xFFFF_FFFF_FFFF_FFFF

  type u32 = x: nat | x < U32_LIMIT
  type u8 = x: nat | x < 0x100
  type i64 = x: int | -0x8000_0000_0000_0000 <= x < 0x8000_0000_0000_0000

  /** `u32::checked_mul`. */
  function CheckedMul(a: u32, b: u32): Option<u32> {
    if a * b < U32_LIMIT then Some(a * b) else None
  }
}
