/** Bytes, little-endian words and bitwise exclusive or, on mathematical integers. */
module Bytes {
  type byte = b: int | 0 <= b < 0x100
  type u16 = w: int | 0 <= w < 0x1_0000
  type u32 = w: int | 0 <= w < 0x1_0000_0000
  type int32 = i: int | -0x8000_0000 <= i < 0x8000_0000

  /** Two's-complement reinterpretation, as Go's conversions between int32 and uint32. */
  function ToU32(i: int32): (w: u32)
    ensures ToI32(w) == i
  {
    if i < 0 then i + 0x1_0000_0000 else i
  }

  function ToI32(w: u32): int32 {
    if w >= 0x8000_0000 then w - 0x1_0000_0000 else w
  }

  function Word16(b0: int, b1: int): int {
    b0 + 0x100 * b1
  }

  function Le16(s: seq<byte>, p: nat): u16
    requires p + 2 <= |s|
  {
    Word16(s[p], s[p + 1])
  }

  function Put16(w: u16): (s: seq<byte>)
    ensures |s| == 2
  {
    [w % 0x100, w / 0x100]
  }

  /** The little-endian word stored at offset p. */
  function Le32(s: seq<byte>, p: nat): u32
    requires p + 4 <= |s|
  {
    Word16(s[p], s[p + 1]) + 0x1_0000 * Word16(s[p + 2], s[p + 3])
  }

  function Put32(w: u32): (s: seq<byte>)
    ensures |s| == 4
  {
    Put16(w % 0x1_0000) + Put16(w / 0x1_0000)
  }

  /** What the words are in terms of their bytes: the first one weighs least. */
  lemma LittleEndian(s: seq<byte>, p: nat)
    requires p + 2 <= |s|
    ensures Le16(s, p) as int == s[p] as int + 0x100 * s[p + 1] as int
    ensures p + 4 <= |s| ==>
      Le32(s, p) as int
        == s[p] as int + 0x100 * s[p + 1] as int + 0x1_0000 * s[p + 2] as int + 0x100_0000 * s[p + 3] as int
  {
  }

  lemma Le32Put32(w: u32)
    ensures Le32(Put32(w), 0) == w
  {
  }

  /** Reading a word where its encoding lies. */
  lemma Le32Stored(s: seq<byte>, p: nat, w: u32)
    requires p + 4 <= |s| && s[p..p + 4] == Put32(w)
    ensures Le32(s, p) == w
  {
    Le32Put32(w);
    hide Put32;
    var t := s[p..p + 4];
    assert t[0] == s[p] && t[1] == s[p + 1] && t[2] == s[p + 2] && t[3] == s[p + 3];
  }

  /** Four bytes are the encoding of the word they hold. */
  lemma Put32Le32(s: seq<byte>, p: nat)
    requires p + 4 <= |s|
    ensures Put32(Le32(s, p)) == s[p..p + 4]
  {
    hide Word16, Put16, Put32;
    Put16Word16(s[p], s[p + 1]);
    Put16Word16(s[p + 2], s[p + 3]);
    Put32OfHalves(Word16(s[p], s[p + 1]), Word16(s[p + 2], s[p + 3]));
    assert s[p..p + 4] == [s[p], s[p + 1]] + [s[p + 2], s[p + 3]];
  }

  lemma Put16Word16(b0: byte, b1: byte)
    ensures 0 <= Word16(b0, b1) < 0x1_0000 && Put16(Word16(b0, b1)) == [b0, b1]
  {
  }

  lemma Put32OfHalves(lo: u16, hi: u16)
    ensures Put32(lo + 0x1_0000 * hi) == Put16(lo) + Put16(hi)
  {
    hide Put16;
    Halves(lo, hi);
  }

  lemma Halves(lo: nat, hi: nat)
    requires lo < 0x1_0000
    ensures (lo + 0x1_0000 * hi) % 0x1_0000 == lo && (lo + 0x1_0000 * hi) / 0x1_0000 == hi
  {
  }

  function Zeros(n: nat): (s: seq<byte>)
    ensures |s| == n && forall i :: 0 <= i < n ==> s[i] == 0
  {
    seq(n, i => 0)
  }

  // ---- Exclusive or ----

  /** Bitwise exclusive or of two naturals of any width. */
  function BitXor(a: nat, b: nat): nat {
    if a == 0 && b == 0 then 0
    else 2 * BitXor(a / 2, b / 2) + (if a % 2 == b % 2 then 0 else 1)
  }

  function Pow2(n: nat): nat {
    if n == 0 then 1 else 2 * Pow2(n - 1)
  }

  /** Bit by bit: set where the operands differ. */
  lemma {:induction false} BitXorBits(a: nat, b: nat, n: nat)
    ensures BitAt(BitXor(a, b), n) == if BitAt(a, n) == BitAt(b, n) then 0 else 1
  {
    if n > 0 { BitXorBits(a / 2, b / 2, n - 1); }
  }

  function BitAt(a: nat, n: nat): nat {
    if n == 0 then a % 2 else BitAt(a / 2, n - 1)
  }

  lemma {:induction false} Pow2Adds(m: nat, n: nat)
    ensures Pow2(m + n) == Pow2(m) * Pow2(n)
  {
    if m > 0 {
      Pow2Adds(m - 1, n);
      assert Pow2(m + n) == 2 * Pow2(m - 1 + n);
    }
  }

  lemma Pow2Of32()
    ensures Pow2(32) == 0x1_0000_0000
  {
    assert Pow2(8) == 0x100;
    Pow2Adds(8, 8);
    Pow2Adds(16, 16);
  }

  lemma {:induction false} BitXorBound(a: nat, b: nat, n: nat)
    requires a < Pow2(n) && b < Pow2(n)
    ensures BitXor(a, b) < Pow2(n)
  {
    if n > 0 && (a != 0 || b != 0) { BitXorBound(a / 2, b / 2, n - 1); }
  }

  lemma {:induction false} BitXorCommutes(a: nat, b: nat)
    ensures BitXor(a, b) == BitXor(b, a)
  {
    if a != 0 || b != 0 { BitXorCommutes(a / 2, b / 2); }
  }

  lemma {:induction false} BitXorAssociates(a: nat, b: nat, c: nat)
    ensures BitXor(BitXor(a, b), c) == BitXor(a, BitXor(b, c))
    decreases a + b + c
  {
    if a != 0 || b != 0 || c != 0 {
      BitXorAssociates(a / 2, b / 2, c / 2);
      var ab, bc := BitXor(a, b), BitXor(b, c);
      assert ab / 2 == BitXor(a / 2, b / 2) && (ab % 2 == 0 <==> a % 2 == b % 2);
      assert bc / 2 == BitXor(b / 2, c / 2) && (bc % 2 == 0 <==> b % 2 == c % 2);
    }
  }

  lemma {:induction false} BitXorSelf(a: nat)
    ensures BitXor(a, a) == 0
  {
    if a != 0 { BitXorSelf(a / 2); }
  }

  lemma {:induction false} BitXorZero(a: nat)
    ensures BitXor(a, 0) == a
  {
    if a != 0 { BitXorZero(a / 2); }
  }

  function Xor8(a: byte, b: byte): byte {
    assert Pow2(8) == 0x100;
    BitXorBound(a, b, 8);
    BitXor(a, b)
  }

  function Xor32(a: u32, b: u32): u32 {
    Pow2Of32();
    BitXorBound(a, b, 32);
    BitXor(a, b)
  }

  /** Applying the same mask twice restores the value; so does removing either operand. */
  lemma BitXorCancels(a: nat, b: nat)
    ensures BitXor(BitXor(a, b), b) == a && BitXor(BitXor(a, b), a) == b
  {
    BitXorAssociates(a, b, b);
    BitXorSelf(b);
    BitXorZero(a);
    BitXorCommutes(a, b);
    BitXorAssociates(b, a, a);
    BitXorSelf(a);
    BitXorZero(b);
  }
}
