/** Optional values, machine-integer limits and the arithmetic shared by every component. */
module Wrappers {

  datatype Option<+T> = None | Some(value: T)

  const U32_MAX: nat := 0xFFFF_FFFF
  const U64_MAX: nat := 0xFFFF_FFFF_FFFF_FFFF

  function Min(a: int, b: int): int {
    if a <= b then a else b
  }

  function Max(a: int, b: int): int {
    if a <= b then b else a
  }

  type U32 = x: nat | x <= U32_MAX

  /** `u32::saturating_add`. */
  function SatAdd32(a: nat, b: nat): U32 {
    Min(a + b, U32_MAX)
  }

  /** Distributivity, stated once so that no caller needs nonlinear reasoning. */
  lemma MulSplit(k: nat, a: int, b: int)
    ensures k * (a + b) == k * a + k * b
  {
  }

  lemma MulMono(k: nat, a: int, b: int)
    requires a <= b
    ensures k * a <= k * b
  {
  }

  lemma SubsetSize<T>(small: set<T>, large: set<T>)
    requires small <= large
    ensures |small| <= |large|
  {
    assert large == small + (large - small);
  }
}
