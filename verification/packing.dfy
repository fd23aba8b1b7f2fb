/**
  Fixed-point packing of the scope's GPU records.

  A coordinate is clamped to [-1, 1], scaled by 32767, rounded half-up and
  stored as the two's-complement bit pattern of a signed 16-bit integer.
  Two 16-bit halves are packed into one 32-bit word, first component in the
  low half. Bitwise `|`, `<<`, `>>` and `&` are written out over `int`.
 */
module Packing {

  type u16 = x: int | 0 <= x < 0x1_0000
  type u32 = x: int | 0 <= x < 0x1_0000_0000

  /** 2 to the power k. */
  function Pow2(k: nat): (r: nat)
    ensures r >= 1
  {
    if k == 0 then 1 else 2 * Pow2(k - 1)
  }

  /** Bitwise OR of two naturals, one bit at a time from the least significant end. */
  function BitOr(x: nat, y: nat): nat
    decreases x + y
  {
    if x == 0 then y
    else if y == 0 then x
    else 2 * BitOr(x / 2, y / 2) + (if x % 2 == 1 || y % 2 == 1 then 1 else 0)
  }

  /** `x << k` on a 32-bit unsigned integer: bits shifted past bit 31 are lost. */
  function Shl32(x: u32, k: nat): u32
  {
    (x * Pow2(k)) % 0x1_0000_0000
  }

  /** When the low operand fits below bit k, OR with a multiple of 2^k is addition. */
  lemma {:induction false} BitOrDisjoint(a: nat, b: nat, k: nat)
    requires a < Pow2(k)
    ensures BitOr(a, b * Pow2(k)) == a + b * Pow2(k)
  {
    if a == 0 || b == 0 {
    } else {
      assert k > 0;
      var m := b * Pow2(k - 1);
      assert b * Pow2(k) == 2 * m;
      assert (2 * m) / 2 == m && (2 * m) % 2 == 0;
      BitOrDisjoint(a / 2, b, k - 1);
      assert BitOr(a, 2 * m) == 2 * BitOr(a / 2, m) + (if a % 2 == 1 then 1 else 0);
    }
  }

  lemma Pow2Sixteen()
    ensures Pow2(16) == 0x1_0000
  {
    assert Pow2(2) == 4;
    assert Pow2(4) == 16;
    assert Pow2(6) == 64;
    assert Pow2(8) == 256;
    assert Pow2(10) == 1024;
    assert Pow2(12) == 4096;
    assert Pow2(14) == 16384;
  }

  /** `w & 0xFFFF`: the low half of a 32-bit word. */
  function Low16(w: u32): u16
  {
    w % 0x1_0000
  }

  /** `w >> 16`: the high half of a 32-bit word. */
  function High16(w: u32): u16
  {
    w / 0x1_0000
  }

  /**
    `pack2xu16`: the first component in the low half, the second in the high
    half; both can be read back. `Pack2xU16AsWritten` shows this is the
    source's `e0 | (e1 << 16)`.
   */
  function Pack2xU16(e0: u16, e1: u16): (r: u32)
    ensures Low16(r) == e0 && High16(r) == e1
  {
    e0 + 0x1_0000 * e1
  }

  /** The bitwise form: OR-ing the low half with the high half shifted left by 16 never overlaps. */
  lemma Pack2xU16AsWritten(e0: u16, e1: u16)
    ensures BitOr(e0, Shl32(e1, 16)) == Pack2xU16(e0, e1) == e0 + 0x1_0000 * e1
  {
    Pow2Sixteen();
    BitOrDisjoint(e0, e1, 16);
  }

  /** Every 32-bit word is the packing of its two halves: Pack2xU16 is a bijection. */
  lemma PackOfHalves(w: u32)
    ensures Pack2xU16(Low16(w), High16(w)) == w
  {
  }

  /** Packing is injective: distinct pairs never share a word. */
  lemma PackInjective(a0: u16, a1: u16, b0: u16, b1: u16)
    requires Pack2xU16(a0, a1) == Pack2xU16(b0, b1)
    ensures a0 == b0 && a1 == b1
  {
  }

  /** `f32::clamp(e, lo, hi)` for ordered, finite bounds. */
  function Clamp(e: real, lo: real, hi: real): (r: real)
    requires lo <= hi
    ensures lo <= r <= hi
    ensures lo <= e <= hi ==> r == e
    ensures e <= lo ==> r == lo
    ensures hi <= e ==> r == hi
  {
    if e < lo then lo else if e > hi then hi else e
  }

  /** A float-to-`i16` cast saturates at the ends of the `i16` range. */
  function SaturateI16(n: int): int
  {
    if n < -0x8000 then -0x8000 else if n > 0x7FFF then 0x7FFF else n
  }

  /** `i16 as u16`: two's-complement reinterpretation of a signed 16-bit value. */
  function I16AsU16(n: int): u16
    requires -0x8000 <= n < 0x8000
  {
    if n < 0 then n + 0x1_0000 else n
  }

  /** The signed 16-bit value whose bit pattern is `u`. */
  function Signed16(u: u16): (n: int)
    ensures -0x8000 <= n < 0x8000
  {
    if u < 0x8000 then u else u - 0x1_0000
  }

  /**
    `pack16snorm`: clamp to [-1, 1], then `floor(0.5 + 32767 * e)`, cast to
    `i16` and reinterpreted as `u16`. The bit pattern 0x8000 (-32768) is never
    produced; `Pack16SnormRounds` states the rounding.
   */
  function Pack16Snorm(e: real): (r: u16)
    ensures r != 0x8000
  {
    var c := Clamp(e, -1.0, 1.0);
    var n := (0.5 + 32767.0 * c).Floor;
    assert -0x7FFF <= n <= 0x7FFF;
    I16AsU16(SaturateI16(n))
  }

  /**
    The packed value, read as signed, is the scaled clamped input rounded to
    nearest with ties upward: it lies in [-32767, 32767], within half a step
    of `32767 * clamp(e)`, and the ends of the range map to 0x7FFF and 0x8001.
   */
  lemma Pack16SnormRounds(e: real)
    ensures -0x7FFF <= Signed16(Pack16Snorm(e)) <= 0x7FFF
    ensures -0.5 < Signed16(Pack16Snorm(e)) as real - 32767.0 * Clamp(e, -1.0, 1.0) <= 0.5
    ensures e >= 1.0 ==> Pack16Snorm(e) == 0x7FFF
    ensures e <= -1.0 ==> Pack16Snorm(e) == 0x8001
  {
  }

  /** The reader's decoding of a 16-bit snorm value back to [-1, 1]. */
  function Unpack16Snorm(u: u16): (r: real)
  {
    Signed16(u) as real / 32767.0
  }

  /** Decoding a packed value gives back the clamped input within half a quantisation step. */
  lemma SnormRoundTrip(e: real)
    ensures -1.0 / 65534.0 < Unpack16Snorm(Pack16Snorm(e)) - Clamp(e, -1.0, 1.0) <= 1.0 / 65534.0
  {
    Pack16SnormRounds(e);
    var d := Signed16(Pack16Snorm(e)) as real - 32767.0 * Clamp(e, -1.0, 1.0);
    assert Unpack16Snorm(Pack16Snorm(e)) - Clamp(e, -1.0, 1.0) == d / 32767.0;
  }

  /** Packing sees only the clamped value: 2.0 packs exactly like 1.0. */
  lemma PackSeesClampOnly(e: real)
    ensures Pack16Snorm(e) == Pack16Snorm(Clamp(e, -1.0, 1.0))
  {
  }

  /** Packing preserves order on the signed values. */
  lemma PackMonotone(e0: real, e1: real)
    requires e0 <= e1
    ensures Signed16(Pack16Snorm(e0)) <= Signed16(Pack16Snorm(e1))
  {
    var c0 := Clamp(e0, -1.0, 1.0);
    var c1 := Clamp(e1, -1.0, 1.0);
    assert c0 <= c1;
    assert (0.5 + 32767.0 * c0).Floor <= (0.5 + 32767.0 * c1).Floor;
  }

  /**
    `pack2x16snorm`: both components packed as snorm16, the first in the low
    half of the word and the second in the high half.
   */
  function Pack2x16Snorm(e0: real, e1: real): (r: u32)
    ensures Low16(r) == Pack16Snorm(e0)
    ensures High16(r) == Pack16Snorm(e1)
  {
    Pack2xU16(Pack16Snorm(e0), Pack16Snorm(e1))
  }
}
