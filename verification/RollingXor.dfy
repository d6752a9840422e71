/** What internal/crypto/game_crypt.go computes: the rolling XOR cipher of the game channel. */
module RollingXor {
  import opened Bytes

  /** Sixteen key bytes, of which those at offsets 8 to 11 are a little-endian counter. */
  datatype KeyParts = KeyParts(head: seq<byte>, counter: u32, tail: seq<byte>)

  type Key = k: KeyParts | |k.head| == 8 && |k.tail| == 4
    witness KeyParts(seq(8, i => 0), 0, seq(4, i => 0))

  function KeyBytes(k: Key): (s: seq<byte>)
    ensures |s| == 16
  {
    k.head + Put32(k.counter) + k.tail
  }

  function KeyOf(s: seq<byte>): Key
    requires |s| == 16
  {
    KeyParts(s[..8], Le32(s, 8), s[12..])
  }

  /** The static half of every key. */
  const STATIC_KEY: seq<byte> := [0xc8, 0x27, 0x93, 0x01, 0xa1, 0x6c, 0x31, 0x97]

  function InitialKey(dynamicKey: seq<byte>): Key
    requires |dynamicKey| >= 8
  {
    KeyOf(dynamicKey[..8] + STATIC_KEY)
  }

  /** The cipher's chaining value after n bytes of plaintext: the last ciphertext byte, or 0. */
  function Chain(k: Key, plain: seq<byte>, n: nat): byte
    requires n <= |plain|
  {
    if n == 0 then 0 else Xor8(Xor8(plain[n - 1], KeyBytes(k)[(n - 1) % 16]), Chain(k, plain, n - 1))
  }

  function Encrypted(k: Key, plain: seq<byte>): (cipher: seq<byte>)
    ensures |cipher| == |plain|
  {
    seq(|plain|, i requires 0 <= i < |plain| => Chain(k, plain, i + 1))
  }

  function Previous(s: seq<byte>, i: nat): byte
    requires i <= |s|
  {
    if i == 0 then 0 else s[i - 1]
  }

  function Decrypted(k: Key, cipher: seq<byte>): (plain: seq<byte>)
    ensures |plain| == |cipher|
  {
    seq(|cipher|, i requires 0 <= i < |cipher| => Xor8(Xor8(cipher[i], KeyBytes(k)[i % 16]), Previous(cipher, i)))
  }

  /** The key after a packet of n bytes: the counter at offsets 8 to 11 has moved by n, modulo 2^32. */
  function Advance(k: Key, n: nat): Key {
    k.(counter := (k.counter + n) % 0x1_0000_0000)
  }

  function AdvanceAll(k: Key, packets: seq<seq<byte>>): Key
    decreases packets
  {
    if packets == [] then k else AdvanceAll(Advance(k, |packets[0]|), packets[1..])
  }

  function TotalLength(packets: seq<seq<byte>>): nat {
    if packets == [] then 0 else |packets[0]| + TotalLength(packets[1..])
  }

  // ---- The bytes of keys and packets ----

  /** The first key: eight bytes from the server, then eight constant ones, the first four of them the counter. */
  lemma InitialKeyBytes(dynamicKey: seq<byte>)
    requires |dynamicKey| >= 8
    ensures var k := InitialKey(dynamicKey);
      && KeyBytes(k) == dynamicKey[..8] + [0xc8, 0x27, 0x93, 0x01, 0xa1, 0x6c, 0x31, 0x97]
      && k.counter == 0x0193_27c8
  {
    var s := dynamicKey[..8] + STATIC_KEY;
    assert s[8] == 0xc8 && s[9] == 0x27 && s[10] == 0x93 && s[11] == 0x01;
    assert Put32(0x0193_27c8) == [0xc8, 0x27, 0x93, 0x01];
  }

  /** Moving on by n bytes adds n to the word at offset 8 and leaves the other twelve bytes alone. */
  lemma AdvancedKeyBytes(k: Key, n: nat)
    ensures var before, after := KeyBytes(k), KeyBytes(Advance(k, n));
      && after[..8] == before[..8] && after[12..] == before[12..]
      && Le32(after, 8) == (Le32(before, 8) + n) % 0x1_0000_0000
  {
    Counter(k);
    Counter(Advance(k, n));
    hide Le32, Put32;
  }

  /** What each byte is masked with: its key byte and the ciphertext byte before it. */
  lemma EncryptedByte(k: Key, plain: seq<byte>, i: nat)
    requires i < |plain|
    ensures var c := Encrypted(k, plain);
      c[i] == BitXor(BitXor(plain[i], KeyBytes(k)[i % 16]), if i == 0 then 0 else c[i - 1])
  {
    hide BitXor, KeyBytes;
  }

  lemma DecryptedByte(k: Key, cipher: seq<byte>, i: nat)
    requires i < |cipher|
    ensures Decrypted(k, cipher)[i] ==
      BitXor(BitXor(cipher[i], KeyBytes(k)[i % 16]), if i == 0 then 0 else cipher[i - 1])
  {
    hide BitXor, KeyBytes;
  }

  // ---- Encrypt and Decrypt undo each other ----

  /** The two masks of a byte cancel when applied again. */
  lemma MaskedTwice(x: byte, key: byte, prev: byte)
    ensures Xor8(Xor8(Xor8(Xor8(x, key), prev), key), prev) == x
  {
    hide BitXor;
    var y := BitXor(x, key);
    BitXorAssociates(BitXor(y, prev), key, prev);
    BitXorCommutes(key, prev);
    BitXorAssociates(BitXor(y, prev), prev, key);
    BitXorCancels(y, prev);
    BitXorCancels(x, key);
  }

  lemma DecryptUndoesEncrypt(k: Key, plain: seq<byte>)
    ensures Decrypted(k, Encrypted(k, plain)) == plain
  {
    hide BitXor, Xor8, KeyBytes;
    var cipher := Encrypted(k, plain);
    forall i | 0 <= i < |plain| ensures Decrypted(k, cipher)[i] == plain[i] {
      assert Previous(cipher, i) == Chain(k, plain, i);
      MaskedTwice(plain[i], KeyBytes(k)[i % 16], Chain(k, plain, i));
    }
  }

  lemma {:induction false} ChainOfDecrypted(k: Key, cipher: seq<byte>, n: nat)
    requires n <= |cipher|
    ensures Chain(k, Decrypted(k, cipher), n) == Previous(cipher, n)
  {
    hide BitXor, Xor8, KeyBytes, Decrypted;
    if n > 0 {
      ChainOfDecrypted(k, cipher, n - 1);
      DecryptedAt(k, cipher, n - 1);
      MaskedTwice(cipher[n - 1], KeyBytes(k)[(n - 1) % 16], Previous(cipher, n - 1));
    }
  }

  lemma DecryptedAt(k: Key, cipher: seq<byte>, i: nat)
    requires i < |cipher|
    ensures Decrypted(k, cipher)[i] == Xor8(Xor8(cipher[i], KeyBytes(k)[i % 16]), Previous(cipher, i))
  {
    hide BitXor, Xor8, KeyBytes;
  }

  lemma EncryptUndoesDecrypt(k: Key, cipher: seq<byte>)
    ensures Encrypted(k, Decrypted(k, cipher)) == cipher
  {
    hide BitXor, Xor8, KeyBytes;
    forall i | 0 <= i < |cipher| ensures Encrypted(k, Decrypted(k, cipher))[i] == cipher[i] {
      ChainOfDecrypted(k, cipher, i + 1);
    }
  }

  // ---- Closed form ----

  function XorAll(s: seq<byte>): byte {
    if s == [] then 0 else Xor8(s[|s| - 1], XorAll(s[..|s| - 1]))
  }

  function KeyStream(k: Key, n: nat): (s: seq<byte>)
    ensures |s| == n
  {
    seq(n, i requires 0 <= i < n => KeyBytes(k)[i % 16])
  }

  /** A ciphertext byte is the exclusive or of all plaintext and all key-stream bytes so far. */
  lemma {:induction false} ChainClosedForm(k: Key, plain: seq<byte>, n: nat)
    requires n <= |plain|
    ensures Chain(k, plain, n) == Xor8(XorAll(plain[..n]), XorAll(KeyStream(k, n)))
  {
    hide BitXor, KeyBytes;
    if n == 0 {
      BitXorZero(0);
    } else {
      ChainClosedForm(k, plain, n - 1);
      assert plain[..n][..n - 1] == plain[..n - 1];
      assert KeyStream(k, n)[..n - 1] == KeyStream(k, n - 1);
      var p, key := plain[n - 1], KeyBytes(k)[(n - 1) % 16];
      var ps, ks := XorAll(plain[..n - 1]), XorAll(KeyStream(k, n - 1));
      calc {
        Chain(k, plain, n);
        BitXor(BitXor(p, key), BitXor(ps, ks));
        { BitXorAssociates(p, key, BitXor(ps, ks)); }
        BitXor(p, BitXor(key, BitXor(ps, ks)));
        { BitXorAssociates(key, ps, ks); BitXorCommutes(key, ps); BitXorAssociates(ps, key, ks); }
        BitXor(p, BitXor(ps, BitXor(key, ks)));
        { BitXorAssociates(p, ps, BitXor(key, ks)); }
        BitXor(BitXor(p, ps), BitXor(key, ks));
      }
    }
  }

  // ---- The rolling key ----

  lemma AdvanceAdds(k: Key, m: nat, n: nat)
    ensures Advance(Advance(k, m), n) == Advance(k, m + n)
    ensures Advance(k, 0) == k
  {
  }

  lemma Counter(k: Key)
    ensures Le32(KeyBytes(k), 8) == k.counter
    ensures KeyOf(KeyBytes(k)) == k
  {
    Le32Put32(k.counter);
    var s, c := KeyBytes(k), Put32(k.counter);
    assert s[8] == c[0] && s[9] == c[1] && s[10] == c[2] && s[11] == c[3];
  }

  /** After any packet sequence the key is the initial one with the total byte count added. */
  lemma {:induction false} AdvanceAllTotal(k: Key, packets: seq<seq<byte>>)
    ensures AdvanceAll(k, packets) == Advance(k, TotalLength(packets))
    decreases packets
  {
    if packets == [] {
      AdvanceAdds(k, 0, 0);
    } else {
      AdvanceAllTotal(Advance(k, |packets[0]|), packets[1..]);
      AdvanceAdds(k, |packets[0]|, TotalLength(packets[1..]));
    }
  }

  lemma {:induction false} AdvanceAllAppend(k: Key, packets: seq<seq<byte>>, p: seq<byte>)
    ensures AdvanceAll(k, packets + [p]) == Advance(AdvanceAll(k, packets), |p|)
    decreases packets
  {
    if packets == [] {
      assert (packets + [p])[1..] == [];
    } else {
      AdvanceAllAppend(Advance(k, |packets[0]|), packets[1..], p);
      assert (packets + [p])[1..] == packets[1..] + [p];
    }
  }
}
