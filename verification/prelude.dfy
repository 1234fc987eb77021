/** Machine widths and saturating arithmetic shared by every component. */
module Prelude {

  const U32_MAX: nat := 0xFFFF_FFFF
  const U64_MAX: nat := 0xFFFF_FFFF_FFFF_FFFF
  const I64_MAX: int := 0x7FFF_FFFF_FFFF_FFFF
  const U128_MAX: nat := 0xFFFF_FFFF_FFFF_FFFF_FFFF_FFFF_FFFF_FFFF

  type u32 = n: nat | n <= U32_MAX
  type u64 = n: nat | n <= U64_MAX

  datatype Option<+T> = None | Some(value: T)

  function Min(a: int, b: int): int {
    if a <= b then a else b
  }

  function Max(a: int, b: int): int {
    if a >= b then a else b
  }

  /** `u64::saturating_sub` */
  function SatSub(a: nat, b: nat): nat {
    if a >= b then a - b else 0
  }

  /** `u64::saturating_add` */
  function SatAdd(a: nat, b: nat): u64 {
    if a + b <= U64_MAX then a + b else U64_MAX
  }

  function Pow2(k: nat): nat {
    if k == 0 then 1 else 2 * Pow2(k - 1)
  }

  lemma {:induction false} MulMonotone(a: nat, x: int, y: int)
    requires x <= y
    ensures a * x <= a * y
  {
  }

  lemma {:induction false} MulDistributes(x: int, y: int, c: int)
    ensures (x + y) * c == x * c + y * c
    ensures (x - y) * c == x * c - y * c
    ensures c * (x + y) == c * x + c * y
    ensures c * (x - y) == c * x - c * y
  {
  }
}
