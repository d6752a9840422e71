/** internal/crypto/rsa.go: the modulus scrambling, and raw RSA on 128-byte blocks. */
module Rsa {
  import opened Bytes

  const MODULUS_SIZE: nat := 128
  const HALF: nat := 0x40

  // ---- The four steps as functions of the 128 bytes; each undoes itself ----

  type Modulus = m: seq<byte> | |m| == 128 witness seq(128, i => 0)

  function MixUpper(m: Modulus): Modulus {
    seq(128, i requires 0 <= i < 128 => if i >= HALF then Xor8(m[i], m[i - HALF]) else m[i])
  }

  function MixMiddle(m: Modulus): Modulus {
    seq(128, i requires 0 <= i < 128 => if 0x0d <= i < 0x11 then Xor8(m[i], m[i + 0x27]) else m[i])
  }

  function MixLower(m: Modulus): Modulus {
    seq(128, i requires 0 <= i < 128 => if i < HALF then Xor8(m[i], m[i + HALF]) else m[i])
  }

  function SwapEnds(m: Modulus): Modulus {
    seq(128, i requires 0 <= i < 128 =>
      if i < 4 then m[i + 0x4d] else if 0x4d <= i < 0x51 then m[i - 0x4d] else m[i])
  }

  function Unscrambled(m: Modulus): Modulus {
    SwapEnds(MixLower(MixMiddle(MixUpper(m))))
  }

  /** The same steps in reverse order: what the server did. */
  function Scrambled(m: Modulus): Modulus {
    MixUpper(MixMiddle(MixLower(SwapEnds(m))))
  }

  lemma StepsUndoThemselves(m: Modulus)
    ensures MixUpper(MixUpper(m)) == m && MixMiddle(MixMiddle(m)) == m
    ensures MixLower(MixLower(m)) == m && SwapEnds(SwapEnds(m)) == m
  {
    hide BitXor;
    forall i | 0 <= i < 128
      ensures MixUpper(MixUpper(m))[i] == m[i] && MixMiddle(MixMiddle(m))[i] == m[i]
      ensures MixLower(MixLower(m))[i] == m[i]
    {
      if i >= HALF { BitXorCancels(m[i], m[i - HALF]); } else { BitXorCancels(m[i], m[i + HALF]); }
      if 0x0d <= i < 0x11 { BitXorCancels(m[i], m[i + 0x27]); }
    }
  }

  /** Unscrambling is a bijection, and scrambling is its inverse. */
  lemma UnscramblingIsABijection(m: Modulus)
    ensures Unscrambled(Scrambled(m)) == m && Scrambled(Unscrambled(m)) == m
  {
    StepsUndoThemselves(m);
    StepsUndoThemselves(SwapEnds(m));
    StepsUndoThemselves(MixLower(SwapEnds(m)));
    StepsUndoThemselves(MixMiddle(MixLower(SwapEnds(m))));
    StepsUndoThemselves(MixUpper(m));
    StepsUndoThemselves(MixMiddle(MixUpper(m)));
    StepsUndoThemselves(MixLower(MixMiddle(MixUpper(m))));
    hide MixUpper, MixMiddle, MixLower, SwapEnds;
  }

  /** Where every byte comes from: what the four steps amount to. */
  ghost predicate IsUnscrambling(m: Modulus, u: Modulus) {
    && (forall i: nat :: i < 4 ==> u[i] == BitXor(m[i + 0x4d], m[i + 0x0d]))
    && (forall i: nat :: 0x0d <= i <= 0x10 ==> u[i] == BitXor(m[i + 0x27], m[i + 0x40]))
    && (forall i: nat :: 4 <= i < 0x0d || 0x10 < i < 0x40 ==> u[i] == m[i + 0x40])
    && (forall i: nat :: 0x4d <= i <= 0x50 ==> u[i] == m[i - 0x0d])
    && (forall i: nat :: 0x40 <= i < 0x4d || 0x50 < i < 0x80 ==> u[i] == BitXor(m[i], m[i - 0x40]))
  }

  lemma UnscrambledClosedForm(m: Modulus)
    ensures IsUnscrambling(m, Unscrambled(m))
  {
    hide BitXor, SwapEnds;
    var c := MixLower(MixMiddle(MixUpper(m)));
    forall i: nat | i < 0x40
      ensures c[i] == if 0x0d <= i <= 0x10 then BitXor(m[i + 0x27], m[i + 0x40]) else m[i + 0x40]
    {
      var upper := BitXor(m[i + 0x40], m[i]);
      BitXorCommutes(m[i], upper);
      BitXorCancels(m[i + 0x40], m[i]);
      if 0x0d <= i <= 0x10 { OneOfThreeCancels(m[i], m[i + 0x27], m[i + 0x40]); }
    }
    assert forall i: nat :: 0x40 <= i < 128 ==> c[i] == BitXor(m[i], m[i - 0x40]);
    hide MixUpper, MixMiddle, MixLower;
    SwappedBytes(c);
  }

  lemma OneOfThreeCancels(a: nat, b: nat, c: nat)
    ensures BitXor(BitXor(a, b), BitXor(c, a)) == BitXor(b, c)
  {
    hide BitXor;
    BitXorCommutes(a, b);
    BitXorCommutes(c, a);
    BitXorAssociates(b, a, BitXor(a, c));
    BitXorAssociates(a, a, c);
    BitXorSelf(a);
    BitXorCommutes(0, c);
    BitXorZero(c);
  }

  lemma SwappedBytes(c: Modulus)
    ensures forall i: nat :: i < 4 ==> SwapEnds(c)[i] == c[i + 0x4d]
    ensures forall i: nat :: 0x4d <= i <= 0x50 ==> SwapEnds(c)[i] == c[i - 0x4d]
    ensures forall i: nat :: 4 <= i < 0x4d || 0x50 < i < 0x80 ==> SwapEnds(c)[i] == c[i]
  {
  }

  // ---- The same in place ----

  method XorUpper(mod: array<byte>)
    requires mod.Length == 128
    modifies mod
    ensures mod[..] == MixUpper(old(mod[..]))
  {
    ghost var m := mod[..];
    ghost var target := MixUpper(m);
    hide BitXor, Xor8;
    for i := 0 to 0x40
      invariant forall j :: 0 <= j < 0x40 + i ==> mod[j] == target[j]
      invariant forall j :: 0x40 + i <= j < 128 ==> mod[j] == m[j]
    {
      mod[0x40 + i] := Xor8(mod[0x40 + i], mod[i]);
    }
  }

  method XorMiddle(mod: array<byte>)
    requires mod.Length == 128
    modifies mod
    ensures mod[..] == MixMiddle(old(mod[..]))
  {
    ghost var m := mod[..];
    ghost var target := MixMiddle(m);
    hide BitXor, Xor8;
    for i := 0 to 4
      invariant forall j :: 0 <= j < 0x0d + i || 0x11 <= j < 128 ==> mod[j] == target[j]
      invariant forall j :: 0x0d + i <= j < 128 ==> mod[j] == m[j]
    {
      mod[0x0d + i] := Xor8(mod[0x0d + i], mod[0x34 + i]);
    }
  }

  method XorLower(mod: array<byte>)
    requires mod.Length == 128
    modifies mod
    ensures mod[..] == MixLower(old(mod[..]))
  {
    ghost var m := mod[..];
    ghost var target := MixLower(m);
    hide BitXor, Xor8;
    for i := 0 to 0x40
      invariant forall j :: 0 <= j < i || 0x40 <= j < 128 ==> mod[j] == target[j]
      invariant forall j :: i <= j < 128 ==> mod[j] == m[j]
    {
      mod[i] := Xor8(mod[i], mod[0x40 + i]);
    }
  }

  method SwapLoop(mod: array<byte>)
    requires mod.Length == 128
    modifies mod
    ensures mod[..] == SwapEnds(old(mod[..]))
  {
    ghost var m := mod[..];
    ghost var target := SwapEnds(m);
    for i := 0 to 4
      invariant forall j :: 0 <= j < i || 4 <= j < 0x4d + i || 0x51 <= j < 128 ==> mod[j] == target[j]
      invariant forall j :: i <= j < 4 || 0x4d + i <= j < 0x51 ==> mod[j] == m[j]
    {
      mod[i], mod[0x4d + i] := mod[0x4d + i], mod[i];
    }
  }

  /** Any other length is left as it is. */
  method UnscrambleModulus(mod: array<byte>)
    modifies mod
    ensures mod.Length == 128 ==> mod[..] == Unscrambled(old(mod[..])) && IsUnscrambling(old(mod[..]), mod[..])
    ensures mod.Length != 128 ==> mod[..] == old(mod[..])
  {
    hide MixUpper, MixMiddle, MixLower, SwapEnds, IsUnscrambling;
    if mod.Length != 128 { return; }
    UnscrambledClosedForm(mod[..]);
    XorUpper(mod);
    XorMiddle(mod);
    XorLower(mod);
    SwapLoop(mod);
  }

  // ---- Integers and octet strings (sections 4.1 and 4.2 of RFC 8017) ----

  /** OS2IP: big.Int.SetBytes. */
  function Os2ip(s: seq<byte>): nat {
    if s == [] then 0 else 0x100 * Os2ip(s[..|s| - 1]) + s[|s| - 1]
  }

  /** big.Int.Bytes: big-endian without leading zeros. */
  function Minimal(n: nat): seq<byte> {
    if n == 0 then [] else Minimal(n / 0x100) + [n % 0x100]
  }

  function Power(base: nat, exponent: nat): nat {
    if exponent == 0 then 1 else base * Power(base, exponent - 1)
  }

  lemma {:induction false} PowerAdds(base: nat, m: nat, n: nat)
    ensures Power(base, m + n) == Power(base, m) * Power(base, n)
    ensures Power(base, 1) == base
  {
    if m > 0 {
      PowerAdds(base, m - 1, n);
      Associates(base, Power(base, m - 1), Power(base, n));
    }
  }

  lemma Associates(a: nat, b: nat, c: nat)
    ensures a * (b * c) == (a * b) * c
  {
  }

  /** Big-endian: the last byte weighs one, and what lies before some bytes weighs 256 for each of them. */
  lemma {:induction false} Os2ipConcat(s: seq<byte>, t: seq<byte>)
    ensures Os2ip(s + t) == Os2ip(s) * Power(256, |t|) + Os2ip(t)
    ensures |t| == 1 ==> Os2ip(t) == t[0]
    decreases |t|
  {
    if t == [] {
      assert s + t == s;
    } else {
      var n := |t| - 1;
      assert (s + t)[..|s + t| - 1] == s + t[..n];
      Os2ipConcat(s, t[..n]);
      Shifted(Os2ip(s), Power(256, n), Os2ip(t[..n]));
    }
  }

  lemma Shifted(a: nat, b: nat, c: nat)
    ensures 256 * (a * b + c) == a * (256 * b) + 256 * c
  {
  }

  lemma {:induction false} Os2ipMinimal(n: nat)
    ensures Os2ip(Minimal(n)) == n
  {
    if n > 0 {
      Os2ipMinimal(n / 0x100);
      assert Minimal(n)[..|Minimal(n)| - 1] == Minimal(n / 0x100);
    }
  }

  lemma {:induction false} Os2ipLeadingZeros(k: nat, s: seq<byte>)
    ensures Os2ip(Zeros(k) + s) == Os2ip(s)
    decreases k + |s|
  {
    var t := Zeros(k) + s;
    if s != [] {
      assert t[..|t| - 1] == Zeros(k) + s[..|s| - 1];
      Os2ipLeadingZeros(k, s[..|s| - 1]);
    } else if k > 0 {
      assert t[..|t| - 1] == Zeros(k - 1) + s;
      Os2ipLeadingZeros(k - 1, s);
    }
  }

  lemma {:induction false} Os2ipBound(s: seq<byte>)
    ensures Os2ip(s) < Power(0x100, |s|)
  {
    if s != [] { Os2ipBound(s[..|s| - 1]); }
  }

  /** A number needs no more bytes than its size allows, and no fewer. */
  lemma {:induction false} MinimalLength(n: nat, k: nat)
    ensures |Minimal(n)| <= k <==> n < Power(0x100, k)
    decreases n
  {
    if n == 0 {
      PowerPositive(k);
    } else if k > 0 {
      MinimalLength(n / 0x100, k - 1);
    }
  }

  lemma {:induction false} PowerPositive(k: nat)
    ensures Power(0x100, k) > 0
  {
    if k > 0 { PowerPositive(k - 1); }
  }

  /** Leading zeros up to the block size, as far as needed. */
  function Block(n: nat): (s: seq<byte>)
    ensures |s| >= MODULUS_SIZE
  {
    var m := Minimal(n);
    if |m| < MODULUS_SIZE then Zeros(MODULUS_SIZE - |m|) + m else m
  }

  /** I2OSP: the block keeps the number, and is as long as the modulus exactly when the number fits it. */
  lemma BlockKeepsNumber(n: nat)
    ensures Os2ip(Block(n)) == n
    ensures |Block(n)| == MODULUS_SIZE <==> n < Power(0x100, MODULUS_SIZE)
    ensures |Block(n)| >= MODULUS_SIZE
  {
    hide Power, Minimal, Os2ip;
    MinimalLength(n, MODULUS_SIZE);
    Os2ipMinimal(n);
    var k := MODULUS_SIZE - |Minimal(n)|;
    if k > 0 { Os2ipLeadingZeros(k, Minimal(n)); }
  }

  lemma {:induction false} Os2ipZero(s: seq<byte>)
    ensures Os2ip(s) == 0 <==> s == Zeros(|s|)
  {
    if s != [] {
      var n := |s| - 1;
      Os2ipZero(s[..n]);
      assert s == s[..n] + [s[n]] && Zeros(|s|) == Zeros(n) + [0];
    }
  }

  /** big.Int.Exp: no reduction when the modulus is 0. */
  function ModExp(base: nat, exponent: nat, modulus: nat): nat {
    if modulus == 0 then Power(base, exponent) else Power(base, exponent) % modulus
  }

  /** The 128 bytes NewRSA makes of what the server sent. */
  function Fitted(modulus: seq<byte>): Modulus {
    if |modulus| >= MODULUS_SIZE then modulus[..MODULUS_SIZE] else modulus + Zeros(MODULUS_SIZE - |modulus|)
  }

  lemma FittedBytes(modulus: seq<byte>, i: nat)
    requires i < 128
    ensures Fitted(modulus)[i] == if i < |modulus| then modulus[i] else 0
  {
  }

  /** The number fits 128 bytes, and only a modulus of zeros gives zero. */
  lemma ModulusInRange(m: Modulus)
    ensures Os2ip(Unscrambled(m)) < Power(0x100, MODULUS_SIZE)
    ensures Os2ip(Unscrambled(m)) == 0 <==> m == Zeros(MODULUS_SIZE)
  {
    ghost var z := Zeros(MODULUS_SIZE);
    assert Unscrambled(z) == z by { UnscrambledZeros(); }
    hide Power, Os2ip, Unscrambled, Scrambled;
    Os2ipBound(Unscrambled(m));
    Os2ipZero(Unscrambled(m));
    UnscramblingIsABijection(m);
    UnscramblingIsABijection(z);
  }

  lemma UnscrambledZeros()
    ensures Unscrambled(Zeros(MODULUS_SIZE)) == Zeros(MODULUS_SIZE)
  {
    ghost var z := Zeros(MODULUS_SIZE);
    BitXorZero(0);
    assert MixUpper(z) == z && MixMiddle(z) == z && MixLower(z) == z && SwapEnds(z) == z;
  }

  class RSA {
    const n: nat
    const e: nat

    constructor (modulus: seq<byte>)
      ensures n == Os2ip(Unscrambled(Fitted(modulus))) && e == 65537
    {
      hide Os2ip, Unscrambled;
      var unscrambled := new byte[MODULUS_SIZE](_ => 0);
      forall i | 0 <= i < MODULUS_SIZE && i < |modulus| { unscrambled[i] := modulus[i]; }
      assert unscrambled[..] == Fitted(modulus);
      UnscrambleModulus(unscrambled);
      n := Os2ip(unscrambled[..]);
      e := 65537;
    }

    /** Raw RSA: always the number m^e mod n, and 128 bytes for every modulus that fits them. */
    method Encrypt(data: seq<byte>) returns (res: seq<byte>)
      ensures res == Block(ModExp(Os2ip(data), e, n))
      ensures 0 < n < Power(256, 128) ==> |res| == 128 && Os2ip(res) == Power(Os2ip(data), e) % n
    {
      hide Power, Os2ip, Minimal;
      var m := Os2ip(data);
      var c := ModExp(m, e, n);
      BlockKeepsNumber(c);
      res := Minimal(c);
      if |res| < 128 {
        res := Zeros(128 - |res|) + res;
      }
    }
  }
}
