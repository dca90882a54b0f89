/** Machine-level arithmetic shared by both firmware variants: the C integer
    widths, the bitwise OR behind the COLOR_BRG packing macro, the byte view
    of a 32-bit pixel, and C's truncating division. */
module Bits {

  type byte = x: int | 0 <= x < 256
  type u32 = x: int | 0 <= x < 0x1_0000_0000

  function Min(a: int, b: int): int { if a < b then a else b }
  function Max(a: int, b: int): int { if a > b then a else b }
  function Abs(a: int): nat { if a < 0 then -a else a }

  function Pow2(k: nat): (r: nat)
    ensures r >= 1
  {
    if k == 0 then 1 else 2 * Pow2(k - 1)
  }

  /** C's `|` on non-negative operands, bit by bit from the least significant end. */
  function BitOr(a: nat, b: nat): nat
    decreases a + b
  {
    if a == 0 then b
    else if b == 0 then a
    else 2 * BitOr(a / 2, b / 2) + (if a % 2 == 1 || b % 2 == 1 then 1 else 0)
  }

  /** OR-ing a value shifted left by k with one below 2^k is addition. */
  lemma {:induction false} BitOrDisjoint(hi: nat, lo: nat, k: nat)
    requires lo < Pow2(k)
    ensures BitOr(hi * Pow2(k), lo) == hi * Pow2(k) + lo
  {
    if k == 0 {
      assert lo == 0;
    } else if hi == 0 || lo == 0 {
    } else {
      var p := Pow2(k - 1);
      assert Pow2(k) == 2 * p;
      assert hi * Pow2(k) == 2 * (hi * p) by {
        assert hi * (2 * p) == 2 * (hi * p);
      }
      assert (hi * Pow2(k)) / 2 == hi * p;
      assert (hi * Pow2(k)) % 2 == 0;
      assert lo / 2 < p;
      BitOrDisjoint(hi, lo / 2, k - 1);
    }
  }

  /** The firmware's `COLOR_BRG(R, G, B)` macro, `(G << 16) | (R << 8) | B`,
      with neither clamping nor masking of its arguments. When every argument
      is a byte, the three channels do not overlap and the OR is a sum. */
  function ColorBrg(r: nat, g: nat, b: nat): (c: nat)
    ensures r < 256 && g < 256 && b < 256 ==> c == g * 65536 + r * 256 + b
  {
    if r < 256 && g < 256 && b < 256 then
      assert Pow2(8) == 256 && Pow2(16) == 65536 by { Pow2Facts(); }
      BitOrDisjoint(g, r * 256, 16);
      BitOrDisjoint(g * 256 + r, b, 8);
      assert (g * 256 + r) * 256 == g * 65536 + r * 256;
      BitOr(BitOr(g * 65536, r * 256), b)
    else
      BitOr(BitOr(g * 65536, r * 256), b)
  }

  lemma Pow2Facts()
    ensures Pow2(8) == 256 && Pow2(16) == 65536
  {
    assert Pow2(4) == 16;
    assert Pow2(8) == 256;
    assert Pow2(12) == 4096;
  }

  /** Byte k (0 = least significant) of a pixel held as a little-endian word. */
  function ByteOf(c: nat, k: nat): byte
    requires k < 4
  {
    if k == 0 then c % 256
    else if k == 1 then (c / 256) % 256
    else if k == 2 then (c / 65536) % 256
    else (c / 16777216) % 256
  }

  /** The 32-bit word whose little-endian bytes are b0, b1, b2, b3. */
  function Word(b0: byte, b1: byte, b2: byte, b3: byte): (c: u32)
  {
    b0 + 256 * b1 + 65536 * b2 + 16777216 * b3
  }

  /** A word is recovered from its four bytes. */
  lemma WordOfBytes(c: u32)
    ensures Word(ByteOf(c, 0), ByteOf(c, 1), ByteOf(c, 2), ByteOf(c, 3)) == c
  {
    var q1 := c / 256;
    var q2 := q1 / 256;
    var q3 := q2 / 256;
    assert c == c % 256 + 256 * q1;
    assert q1 == q1 % 256 + 256 * q2;
    assert q2 == q2 % 256 + 256 * q3;
    assert q2 == c / 65536;
    assert q3 == c / 16777216;
    assert q3 < 256;
  }

  /** The bytes of a word are the ones it was built from. */
  lemma BytesOfWord(b0: byte, b1: byte, b2: byte, b3: byte)
    ensures ByteOf(Word(b0, b1, b2, b3), 0) == b0
    ensures ByteOf(Word(b0, b1, b2, b3), 1) == b1
    ensures ByteOf(Word(b0, b1, b2, b3), 2) == b2
    ensures ByteOf(Word(b0, b1, b2, b3), 3) == b3
  {
    var c := Word(b0, b1, b2, b3);
    assert c == b0 + 256 * (b1 + 256 * (b2 + 256 * b3));
    assert c / 256 == b1 + 256 * (b2 + 256 * b3);
    assert c / 65536 == (c / 256) / 256;
    assert c / 65536 == b2 + 256 * b3;
    assert c / 16777216 == (c / 65536) / 256;
    assert c / 16777216 == b3;
  }

  /** C's `/` on int (section 6.5.5 of ISO/IEC 9899:1999): the quotient is
      truncated toward zero, so its magnitude is the floor of the magnitudes
      and its sign is the product of the operands' signs. Dafny's own `/` is
      Euclidean and differs from this when an operand is negative. */
  function TruncDiv(a: int, b: int): (q: int)
    requires b != 0
    ensures Abs(q) == Abs(a) / Abs(b)
    ensures q > 0 ==> (a > 0) == (b > 0)
    ensures q < 0 ==> (a > 0) != (b > 0)
  {
    var n, d := Abs(a), Abs(b);
    var m := n / d;
    assert m >= 0 && (n == 0 ==> m == 0) by { DivNonNeg(n, d); }
    if (a < 0) == (b < 0) then m else -m
  }

  lemma DivNonNeg(n: nat, d: nat)
    requires d > 0
    ensures n / d >= 0 && (n == 0 ==> n / d == 0)
  {
  }
}
