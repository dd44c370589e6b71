/**
 * Fixed-width machine integers used by the encoding tables, and the few facts about
 * powers of two that the bit-field arithmetic needs.
 *
 * Dafny integers are unbounded; these subset types pin down the widths of the Rust
 * fields being modelled (`u8`, `u16`, `u32`, `usize`, `i32`).
 */
module Ints {

  const U8Limit: int := 0x100
  const U16Limit: int := 0x1_0000
  const U32Limit: int := 0x1_0000_0000
  const UsizeLimit: int := 0x1_0000_0000_0000_0000

  type uint8 = x: int | 0 <= x < 0x100
  type uint16 = x: int | 0 <= x < 0x1_0000
  type uint32 = x: int | 0 <= x < 0x1_0000_0000
  /** `usize` on a 64-bit host. */
  type usize = x: int | 0 <= x < 0x1_0000_0000_0000_0000
  type int32 = x: int | -0x8000_0000 <= x < 0x8000_0000

  /** `!0` as a `usize`: the all-ones value. */
  const UsizeAllOnes: usize := 0xFFFF_FFFF_FFFF_FFFF

  /** `isize::MAX`: no Rust slice is longer than this. */
  const IsizeMax: usize := 0x7FFF_FFFF_FFFF_FFFF

  /** `!0` as a `u8`. */
  const U8AllOnes: uint8 := 0xFF

  /** 2 to the power n, the value of `1 << n` when no bit is shifted out. */
  function Pow2(n: nat): (p: nat)
    ensures p >= 1
  {
    if n == 0 then 1 else 2 * Pow2(n - 1)
  }

  lemma {:induction false} Pow2Add(a: nat, b: nat)
    ensures Pow2(a + b) == Pow2(a) * Pow2(b)
  {
    if a > 0 {
      Pow2Add(a - 1, b);
      assert Pow2(a + b) == 2 * Pow2(a - 1 + b);
    }
  }

  lemma {:induction false} Pow2Mono(a: nat, b: nat)
    requires a <= b
    ensures Pow2(a) <= Pow2(b)
  {
    if a < b {
      Pow2Mono(a, b - 1);
    }
  }

  /** The powers of two that the bit-field widths of the tables need. */
  lemma Pow2Values()
    ensures Pow2(8) == 0x100 && Pow2(12) == 0x1000 && Pow2(31) == 0x8000_0000 && Pow2(32) == U32Limit
    ensures Pow2(63) == 0x8000_0000_0000_0000
  {
    assert Pow2(4) == 16;
    assert Pow2(3) == 8;
    Pow2Add(4, 4);
    Pow2Add(8, 4);
    Pow2Add(8, 8);
    Pow2Add(16, 8);
    Pow2Add(24, 4);
    Pow2Add(28, 3);
    Pow2Add(31, 1);
    Pow2Add(32, 31);
  }

  /** Reinterpret the 32 bits of an unsigned value as a two's complement `i32` (`as i32`). */
  function AsInt32(u: uint32): (i: int32)
    ensures i % U32Limit == u
  {
    if u < 0x8000_0000 then u else u - U32Limit
  }

  /** `a.wrapping_sub(b)` on `u32`. */
  function WrappingSub32(a: uint32, b: uint32): (d: uint32)
    ensures d == a - b || d == a - b + U32Limit
  {
    (a - b) % U32Limit
  }
}
