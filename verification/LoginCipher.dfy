/** What internal/crypto/server_crypt.go computes: padding, checksum, block encryption and the XOR pass. */
module LoginCipher {
  import opened Bytes
  import opened Sequences
  import opened WordRuns

  // ---- Block encryption in ECB mode over an arbitrary permutation of 8-byte blocks ----

  datatype CipherPair = CipherPair(enc: seq<byte> -> seq<byte>, dec: seq<byte> -> seq<byte>)

  const BLOCK: nat := 8

  ghost predicate Permutes(c: CipherPair) {
    forall b: seq<byte> {:trigger c.enc(b)} {:trigger c.dec(b)} :: |b| == BLOCK ==>
      && |c.enc(b)| == BLOCK && |c.dec(b)| == BLOCK
      && c.dec(c.enc(b)) == b && c.enc(c.dec(b)) == b
  }

  type Cipher = c: CipherPair | Permutes(c) witness CipherPair(b => b, b => b)

  function Enciphered(c: Cipher, data: seq<byte>): (s: seq<byte>)
    requires |data| % BLOCK == 0
    ensures |s| == |data|
  {
    if data == [] then [] else c.enc(data[..BLOCK]) + Enciphered(c, data[BLOCK..])
  }

  function Deciphered(c: Cipher, data: seq<byte>): (s: seq<byte>)
    requires |data| % BLOCK == 0
    ensures |s| == |data|
  {
    if data == [] then [] else c.dec(data[..BLOCK]) + Deciphered(c, data[BLOCK..])
  }

  lemma {:induction false} DecipherUndoesEncipher(c: Cipher, data: seq<byte>)
    requires |data| % BLOCK == 0
    ensures Deciphered(c, Enciphered(c, data)) == data
  {
    if data != [] {
      DecipherUndoesEncipher(c, data[BLOCK..]);
      var s := Enciphered(c, data);
      assert s[..BLOCK] == c.enc(data[..BLOCK]) && s[BLOCK..] == Enciphered(c, data[BLOCK..]);
    }
  }

  lemma {:induction false} EncipherUndoesDecipher(c: Cipher, data: seq<byte>)
    requires |data| % BLOCK == 0
    ensures Enciphered(c, Deciphered(c, data)) == data
  {
    if data != [] {
      EncipherUndoesDecipher(c, data[BLOCK..]);
      var s := Deciphered(c, data);
      assert s[..BLOCK] == c.dec(data[..BLOCK]) && s[BLOCK..] == Deciphered(c, data[BLOCK..]);
    }
  }

  lemma BlocksAreWords(n: nat)
    requires n % BLOCK == 0
    ensures n % 4 == 0
  {
  }

  // ---- Padding and checksum ----

  const CHECKSUM: nat := 4

  /** Room behind the payload: more for the first packet on a cipher. */
  function Reserve(first: bool): nat {
    if first then 16 else 12
  }

  function PaddedLength(payload: nat, first: bool): (total: nat)
    ensures total % BLOCK == 0 && payload + Reserve(first) <= total < payload + Reserve(first) + BLOCK
  {
    var needed := payload + Reserve(first);
    var pad := BLOCK - needed % BLOCK;
    if pad != BLOCK then needed + pad else needed
  }

  /** Sixteen to twenty-three bytes behind the first payload on a cipher, twelve to nineteen behind every other. */
  lemma PaddedLengthBounds(payload: nat, first: bool)
    ensures var total := PaddedLength(payload, first);
      && total % 8 == 0
      && (first ==> payload + 16 <= total < payload + 24) && (!first ==> payload + 12 <= total < payload + 20)
  {
  }

  /** The least multiple of eight with room for sixteen more bytes in the first packet, for twelve later on. */
  lemma PaddedLengthIsLeast(payload: nat, first: bool, other: nat)
    requires other % 8 == 0 && payload + (if first then 16 else 12) <= other
    ensures PaddedLength(payload, first) <= other
    ensures var total := PaddedLength(payload, first);
      total % 8 == 0 && payload + (if first then 16 else 12) <= total
  {
  }

  /** The two requests of every login: 25 bytes first on their cipher, 146 bytes later. */
  lemma PaddedLengthOfTheLogin()
    ensures PaddedLength(25, true) == 48 && PaddedLength(146, false) == 160
  {
  }

  /** The exclusive or of the words of a packet. */
  function Checksum(s: seq<byte>): u32 {
    if |s| < 4 then 0 else Xor32(Checksum(s[..|s| - 4]), Le32(s, |s| - 4))
  }

  /** The checksum of a packet of words, from the words. */
  lemma {:induction false} ChecksumOfWords(words: seq<u32>)
    ensures Checksum(Stored([], words)) == XorOf(words)
    decreases |words|
  {
    if words != [] {
      hide Checksum, Stored, BitXor, Put32;
      var n := |words| - 1;
      ChecksumOfWords(words[..n]);
      ChecksumMore(Stored([], words[..n]), words[n]);
      assert words == words[..n] + [words[n]];
      StoredMore([], words[..n], words[n]);
    }
  }

  lemma ChecksumMore(s: seq<byte>, w: u32)
    ensures Checksum(s + Put32(w)) == BitXor(Checksum(s), w)
  {
    hide Put32, Le32, BitXor;
    var t := s + Put32(w);
    assert t[..|t| - 4] == s && t[|t| - 4..|t|] == Put32(w);
    Le32Stored(t, |t| - 4, w);
  }

  function XorOf(words: seq<u32>): nat {
    if words == [] then 0 else BitXor(XorOf(words[..|words| - 1]), words[|words| - 1])
  }

  /** Payload, zeros, and the checksum of both in the last word. */
  function Padded(payload: seq<byte>, total: nat): (s: seq<byte>)
    requires |payload| + CHECKSUM <= total
    ensures |s| == total && payload <= s
  {
    var body := payload + Zeros(total - CHECKSUM - |payload|);
    body + Put32(Checksum(body))
  }

  /** Where everything lies: the payload first, zeros behind it, the checksum in the last four bytes. */
  lemma PaddedBytes(payload: seq<byte>, total: nat)
    requires |payload| + 4 <= total
    ensures var s := Padded(payload, total);
      && |s| == total && s[..|payload|] == payload
      && (forall i :: |payload| <= i < total - 4 ==> s[i] == 0)
      && Le32(s, total - 4) == Checksum(s[..total - 4])
  {
    hide Put32, Le32, Checksum;
    var body := payload + Zeros(total - 4 - |payload|);
    var s := Padded(payload, total);
    assert s[..total - 4] == body && s[total - 4..total] == Put32(Checksum(body));
    Le32Stored(s, total - 4, Checksum(body));
  }

  /** The receiver's test: all words of the plaintext cancel out. */
  lemma PaddedCancels(payload: seq<byte>, total: nat)
    requires |payload| + CHECKSUM <= total
    ensures Checksum(Padded(payload, total)) == 0
  {
    var body := payload + Zeros(total - CHECKSUM - |payload|);
    var s := Padded(payload, total);
    hide Put32, Le32, BitXor;
    assert s[..|s| - 4] == body;
    assert s[|s| - 4..|s|] == Put32(Checksum(body));
    Le32Stored(s, |s| - 4, Checksum(body));
    BitXorSelf(Checksum(body));
  }

  /** What a login request becomes on the wire, and what a peer with the same key makes of it. */
  lemma PeerRecovers(c: Cipher, payload: seq<byte>, first: bool)
    ensures var total := PaddedLength(|payload|, first);
      var plain := Deciphered(c, Enciphered(c, Padded(payload, total)));
      plain == Padded(payload, total) && payload <= plain && Checksum(plain) == 0
  {
    var total := PaddedLength(|payload|, first);
    hide PaddedLength;
    PaddedCancels(payload, total);
    DecipherUndoesEncipher(c, Padded(payload, total));
  }

  // ---- The XOR pass over the words between the first and the last two ----

  const MODULUS: nat := 0x1_0000_0000

  /** uint32 addition and subtraction. */
  function Plus32(a: u32, b: u32): u32 {
    (a + b) % MODULUS
  }

  function Minus32(a: u32, b: u32): u32 {
    (a - b) % MODULUS
  }

  datatype Pass = Pass(words: seq<u32>, key: u32)

  /** The sender's pass, front to back. */
  function Masked(words: seq<u32>, key: u32): (p: Pass)
    ensures |p.words| == |words|
  {
    if words == [] then Pass([], key)
    else
      var n := |words| - 1;
      var before := Masked(words[..n], key);
      var k := Plus32(before.key, words[n]);
      Pass(before.words + [Xor32(words[n], k)], k)
  }

  /** The receiver's pass, back to front; its key ends as the sender's began. */
  function Unmasked(words: seq<u32>, key: u32): (p: Pass)
    ensures |p.words| == |words|
  {
    if words == [] then Pass([], key)
    else
      var n := |words| - 1;
      var w := Xor32(words[n], key);
      var before := Unmasked(words[..n], Minus32(key, w));
      Pass(before.words + [w], before.key)
  }

  /** The sum of some words, not yet reduced. */
  function Sum(words: seq<u32>): nat {
    if words == [] then 0 else Sum(words[..|words| - 1]) + words[|words| - 1]
  }

  /** In closed form: each word is masked with the key plus the sum of the words up to it, all modulo 2^32. */
  lemma {:induction false} MaskedClosedForm(words: seq<u32>, key: u32, j: nat)
    requires j < |words|
    ensures Masked(words, key).words[j] == BitXor(words[j], (key + Sum(words[..j + 1])) % 0x1_0000_0000)
    decreases |words|
  {
    hide BitXor, Sum, Plus32;
    var n := |words| - 1;
    if j < n {
      MaskedClosedForm(words[..n], key, j);
      assert words[..n][..j + 1] == words[..j + 1];
    } else {
      MaskedKey(words, key);
      assert words[..n + 1] == words;
    }
  }

  /** The running key ends as the sum of everything. */
  lemma {:induction false} MaskedKey(words: seq<u32>, key: u32)
    ensures Masked(words, key).key == (key + Sum(words)) % 0x1_0000_0000
    decreases |words|
  {
    if words != [] {
      hide Xor32;
      var n := |words| - 1;
      MaskedKey(words[..n], key);
      SumWraps(key + Sum(words[..n]), words[n]);
    }
  }

  lemma SumWraps(a: nat, b: nat)
    ensures (a % 0x1_0000_0000 + b) % 0x1_0000_0000 == (a + b) % 0x1_0000_0000
  {
  }

  lemma WrapCancels(k: u32, w: u32)
    ensures Minus32(Plus32(k, w), w) == k && Plus32(Minus32(k, w), w) == k
  {
  }

  lemma XorCancels(a: u32, b: u32)
    ensures Xor32(Xor32(a, b), b) == a
  {
    BitXorCancels(a, b);
  }

  lemma MaskedMore(words: seq<u32>, w: u32, key: u32)
    ensures var before := Masked(words, key); var k := Plus32(before.key, w);
      Masked(words + [w], key) == Pass(before.words + [Xor32(w, k)], k)
  {
    hide Xor32, Plus32;
    assert (words + [w])[..|words|] == words;
  }

  lemma UnmaskedMore(words: seq<u32>, c: u32, key: u32)
    ensures var w := Xor32(c, key); var before := Unmasked(words, Minus32(key, w));
      Unmasked(words + [c], key) == Pass(before.words + [w], before.key)
  {
    hide Xor32, Minus32;
    assert (words + [c])[..|words|] == words;
  }

  lemma {:induction false} UnmaskUndoesMask(words: seq<u32>, key: u32)
    ensures Unmasked(Masked(words, key).words, Masked(words, key).key) == Pass(words, key)
  {
    if words != [] {
      hide Masked, Unmasked, Xor32, Plus32, Minus32;
      var n := |words| - 1;
      var rest, w := words[..n], words[n];
      assert words == rest + [w];
      var before := Masked(rest, key);
      var k := Plus32(before.key, w);
      MaskedMore(rest, w, key);
      UnmaskedMore(before.words, Xor32(w, k), k);
      XorCancels(w, k);
      WrapCancels(before.key, w);
      UnmaskUndoesMask(rest, key);
    }
  }

  lemma {:induction false} MaskUndoesUnmask(words: seq<u32>, key: u32)
    ensures Masked(Unmasked(words, key).words, Unmasked(words, key).key) == Pass(words, key)
  {
    if words != [] {
      hide Masked, Unmasked, Xor32, Plus32, Minus32;
      var n := |words| - 1;
      var rest, c := words[..n], words[n];
      assert words == rest + [c];
      var w := Xor32(c, key);
      var before := Unmasked(rest, Minus32(key, w));
      UnmaskedMore(rest, c, key);
      MaskedMore(before.words, w, before.key);
      XorCancels(c, key);
      WrapCancels(key, w);
      MaskUndoesUnmask(rest, Minus32(key, w));
    }
  }

  /** A packet's words after the sender's pass: the first and last stay, the key goes into the one before the last. */
  function PassedWords(words: seq<u32>, key: u32): (s: seq<u32>)
    requires |words| >= 3
    ensures |s| == |words|
  {
    var n := |words|;
    var p := Masked(words[1..n - 2], key);
    words[..1] + p.words + [p.key, words[n - 1]]
  }

  /** The server's pass word by word: the first and last as they were, the end of the running key before the last. */
  lemma PassedClosedForm(words: seq<u32>, key: u32, j: nat)
    requires 1 <= j <= |words| - 3
    ensures var n, s := |words|, PassedWords(words, key);
      && s[0] == words[0] && s[n - 1] == words[n - 1]
      && s[j] == BitXor(words[j], (key + Sum(words[1..j + 1])) % 0x1_0000_0000)
      && s[n - 2] == (key + Sum(words[1..n - 2])) % 0x1_0000_0000
  {
    hide Xor32, BitXor, Masked, Sum;
    var middle := words[1..|words| - 2];
    MaskedClosedForm(middle, key, j - 1);
    MaskedKey(middle, key);
    assert middle[..j] == words[1..j + 1];
  }

  function UnpassedWords(words: seq<u32>): (s: seq<u32>)
    requires |words| >= 3
    ensures |s| == |words|
  {
    var n := |words|;
    words[..1] + Unmasked(words[1..n - 2], words[n - 2]).words + words[n - 2..]
  }

  /** The client undoes the server's pass whatever key the server started from. */
  lemma PassRoundTrip(words: seq<u32>, key: u32)
    requires |words| >= 3
    ensures var n := |words|; var k := Masked(words[1..n - 2], key).key;
      && UnpassedWords(PassedWords(words, key)) == words[n - 2 := k]
      && Unmasked(PassedWords(words, key)[1..n - 2], k).key == key
  {
    hide Masked, Unmasked;
    var n, s := |words|, PassedWords(words, key);
    var p := Masked(words[1..n - 2], key);
    UnmaskUndoesMask(words[1..n - 2], key);
    ThreeParts(words[..1], p.words, [p.key, words[n - 1]]);
    assert s[n - 2] == s[n - 2..][0];
    assert words[n - 2 := p.key] == words[..1] + words[1..n - 2] + [p.key, words[n - 1]];
  }

  /** The server's first packet, from its words to the client's: all come through but the one that held the key. */
  lemma InitPacketRecovered(c: Cipher, words: seq<u32>, key: u32)
    requires |words| >= 3 && |words| % 2 == 0
    ensures var n := |words|;
      var wire := Enciphered(c, Stored([], PassedWords(words, key)));
      UnpassedWords(WordsOf(Deciphered(c, wire))) == words[n - 2 := Masked(words[1..n - 2], key).key]
  {
    hide Enciphered, Deciphered, PassedWords, UnpassedWords, Masked, WordsOf, Stored;
    DecipherUndoesEncipher(c, Stored([], PassedWords(words, key)));
    WordsOfStored(PassedWords(words, key));
    PassRoundTrip(words, key);
  }
}
