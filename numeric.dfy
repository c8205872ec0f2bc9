/** Minimum, maximum and clamping on reals, with Rust's `f32::min` and `f32::clamp` semantics
    for non-NaN operands. */
module Numeric {

  function Min(a: real, b: real): (r: real)
    ensures r <= a && r <= b && (r == a || r == b)
  {
    if a <= b then a else b
  }

  function Max(a: real, b: real): (r: real)
    ensures r >= a && r >= b && (r == a || r == b)
  {
    if a >= b then a else b
  }

  /** `x.clamp(lo, hi)`: `lo` below the range, `hi` above it, `x` inside it. */
  function Clamp(x: real, lo: real, hi: real): (r: real)
    requires lo <= hi
    ensures lo <= r <= hi
    ensures lo <= x <= hi ==> r == x
    ensures x < lo ==> r == lo
    ensures x > hi ==> r == hi
  {
    if x < lo then lo else if x > hi then hi else x
  }

  /** `Min` on naturals (`usize::min`): it agrees with `Min` on the same values as reals. */
  function MinNat(a: nat, b: nat): (r: nat)
    ensures r <= a && r <= b && (r == a || r == b)
    ensures r as real == Min(a as real, b as real)
  {
    if a <= b then a else b
  }
}
