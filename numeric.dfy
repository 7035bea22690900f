/** Rust's fixed-width integers and the saturating and clamping operations the reader uses on them. */
module Numeric {

  /** A `u16` value. */
  type U16 = x: nat | x < 0x1_0000

  /** An `i16` value. */
  type I16 = x: int | -0x8000 <= x < 0x8000

  /** `a.saturating_sub(b)` on unsigned integers. */
  function SatSub(a: nat, b: nat): nat {
    if a >= b then a - b else 0
  }

  /** `a.saturating_mul(b)` on `u16`. */
  function SatMulU16(a: U16, b: U16): (r: U16)
    ensures r == a * b || (r == 0xFFFF && a * b > 0xFFFF)
  {
    if a * b <= 0xFFFF then a * b else 0xFFFF
  }

  /** `std::cmp::min`. */
  function Min(a: nat, b: nat): nat {
    if a <= b then a else b
  }

  /** `x.clamp(lo, hi)`. */
  function Clamp(x: int, lo: int, hi: int): (r: int)
    requires lo <= hi
    ensures lo <= r <= hi
    ensures lo <= x <= hi ==> r == x
    ensures x < lo ==> r == lo
    ensures hi < x ==> r == hi
  {
    if x < lo then lo else if hi < x then hi else x
  }

  /** `value as i16`: the bit pattern of a `u16` read as a signed value. */
  function AsI16(value: U16): (r: I16)
    ensures value < 0x8000 ==> r == value
    ensures value >= 0x8000 ==> r == value - 0x1_0000 && r < 0
  {
    if value < 0x8000 then value else value - 0x1_0000
  }

  /** `i16` addition, wrapping on overflow as an optimised build does. */
  function AddI16(a: I16, b: I16): (r: I16)
    ensures -0x8000 <= a + b < 0x8000 ==> r == a + b
    ensures (r - (a + b)) % 0x1_0000 == 0
  {
    var s := a + b;
    if s >= 0x8000 then s - 0x1_0000 else if s < -0x8000 then s + 0x1_0000 else s
  }
}
