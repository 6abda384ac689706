/** Shared small types: optional values, results, and 64-bit saturating arithmetic. */
module Prelude {

  datatype Option<+T> = None | Some(value: T)

  datatype Result<+T, +E> = Ok(value: T) | Err(error: E)

  const I64_MIN: int := -0x8000_0000_0000_0000
  const I64_MAX: int := 0x7FFF_FFFF_FFFF_FFFF

  predicate IsI64(x: int) {
    I64_MIN <= x <= I64_MAX
  }

  /** An exact integer clamped to the 64-bit range, as `saturating_add` and
      `saturating_sub` clamp their exact result. */
  function Saturate(x: int): int {
    if x < I64_MIN then I64_MIN else if x > I64_MAX then I64_MAX else x
  }
}
