/** internal/crypto/server_crypt.go: the login cipher working in the caller's slice. */
module ServerCrypt {
  import opened Bytes
  import opened Slices
  import opened LoginCipher
  import opened Sequences
  import opened WordRuns

  class Crypt {
    var cipher: Cipher
    var updatedKey: bool

    constructor (cipher: Cipher)
      ensures this.cipher == cipher && !updatedKey
    {
      this.cipher, updatedKey := cipher, false;
    }

    /** The new key's permutation replaces the old one; the first-packet flag stays. */
    method UpdateKey(newCipher: Cipher)
      modifies this`cipher
      ensures cipher == newCipher
    {
      cipher := newCipher;
    }

    /** Grows the payload in place (or moves it when the slice has no room), pads, signs and enciphers it. */
    method Encrypt(data: Slice) returns (out: Slice)
      requires data.Valid()
      modifies this`updatedKey, data.arr
      ensures updatedKey && out.Valid() && out.len == PaddedLength(data.len, old(!updatedKey))
      ensures out.len % 8 == 0
      ensures old(!updatedKey) ==> data.len + 16 <= out.len < data.len + 24
      ensures old(updatedKey) ==> data.len + 12 <= out.len < data.len + 20
      ensures out.View() == Enciphered(cipher, Padded(old(data.View()), out.len))
      ensures out.len <= data.cap ==>
        out == data.Upto(out.len) && SameOutside(old(data.arr[..]), data.arr[..], data.off, out.len)
      ensures out.len > data.cap ==> fresh(out.arr) && data.arr[..] == old(data.arr[..])
    {
      var totalLen := PaddedLength(data.len, !updatedKey);
      PaddedLengthBounds(data.len, !updatedKey);
      out := SealedCopy(cipher, data, totalLen);
      updatedKey := true;
    }

    /** False (and no change) unless the size is a positive multiple of the block size. */
    method Decrypt(data: Slice) returns (ok: bool)
      requires data.Valid()
      modifies data.arr
      ensures ok <==> data.len % BLOCK == 0 && data.len > 0
      ensures ok ==> data.View() == Deciphered(cipher, old(data.View()))
      ensures !ok ==> data.arr[..] == old(data.arr[..])
    {
      if data.len % BLOCK != 0 || data.len <= 0 { return false; }
      DecipherRange(cipher, data);
      return true;
    }

    /** The server's first packet: block decryption, then the XOR pass. */
    method DecryptInit(data: Slice) returns (panics: bool)
      requires data.Valid() && data.len < MODULUS
      modifies data.arr
      ensures panics <==> data.len == 8
      ensures data.len == 0 || data.len % BLOCK != 0 ==> data.arr[..] == old(data.arr[..])
      ensures data.len % BLOCK == 0 && data.len >= 16 ==>
        WordsOf(data.View()) == UnpassedWords(WordsOf(Deciphered(cipher, old(data.View()))))
    {
      hide Deciphered, UnpassedWords, WordsOf, SameOutside, Aligned;
      if data.len % BLOCK != 0 || data.len <= 0 { return false; }
      BlocksAreWords(data.len);
      WholeIsAligned(data);
      DecipherRange(cipher, data);
      WholeIsAligned(data);
      panics := DecXorPass(data, data.len);
      WholeIsAligned(data);
    }
  }

  /** Where the slice has room for the packet it is made there, and elsewhere otherwise. */
  method SealedCopy(cipher: Cipher, data: Slice, totalLen: nat) returns (out: Slice)
    requires data.Valid() && totalLen % BLOCK == 0 && data.len + CHECKSUM <= totalLen
    modifies data.arr
    ensures out.Valid() && out.len == totalLen
    ensures out.View() == Enciphered(cipher, Padded(old(data.View()), totalLen))
    ensures totalLen <= data.cap ==>
      out == data.Upto(totalLen) && SameOutside(old(data.arr[..]), data.arr[..], data.off, totalLen)
    ensures totalLen > data.cap ==> fresh(out.arr) && data.arr[..] == old(data.arr[..])
  {
    ghost var payload, before := data.View(), data.arr[..];
    hide Padded, Enciphered, SameOutside, Zeros;
    if data.cap < totalLen {
      out := MovedTo(data, totalLen);
      SealAndEncipher(cipher, out, payload);
    } else {
      out := data.Upto(totalLen);
      ZeroFrom(out, data.len);
      ghost var zeroed := data.arr[..];
      SealAndEncipher(cipher, out, payload);
      SameOutsideTwice(before, zeroed, data.arr[..], out.off, out.len);
    }
  }

  /** The whole words at the end of the first size bytes: where the backward pass works. */
  function Aligned(raw: Slice, size: nat): (w: Slice)
    requires raw.Valid() && size <= raw.len
    ensures w.Valid() && w.arr == raw.arr && w.len % 4 == 0
  {
    Slice(raw.arr, raw.off + size % 4, size - size % 4, size - size % 4)
  }

  /**
   * The backward pass, for every size. Its position is an unsigned 32-bit number: the guard lets 8 to 11 bytes
   * through, for which the position wraps and the first read leaves the slice. From 12 bytes on it ends, without
   * wrapping, having undone the forward pass on the words counted from the end.
   */
  method DecXorPass(raw: Slice, size: u32) returns (panics: bool)
    requires raw.Valid() && size <= raw.len
    modifies raw.arr
    ensures panics <==> 8 <= size < 12
    ensures size >= 12 ==>
      WordsOf(Aligned(raw, size).View()) == UnpassedWords(old(WordsOf(Aligned(raw, size).View())))
    ensures SameOutside(old(raw.arr[..]), raw.arr[..], raw.off + size % 4, size - size % 4)
    ensures size < 12 ==> raw.arr[..] == old(raw.arr[..])
  {
    hide Xor32, BitXor, Le32, Word16, WordsOf, Unmasked, UnpassedWords, Processed, Minus32, SameOutside;
    SameOutsideItself(raw.arr[..], raw.off + size % 4, size - size % 4);
    if size < 8 { return false; }
    var pos: u32 := size - 8;
    var ecx := WordInSlice(raw, pos);
    MinusFour(pos);
    pos := Minus32(pos, 4);
    if size < 12 {
      // The slice expression's upper bound wraps around as well and lies below the lower one.
      assert pos >= 4 && pos + 4 >= MODULUS;
      return true;
    }
    panics := false;
    PassLoop(raw, size, pos, ecx);
  }

  lemma WholeIsAligned(raw: Slice)
    requires raw.Valid() && raw.len % 4 == 0
    ensures Aligned(raw, raw.len).View() == raw.View()
  {
  }

  /** The loop of the pass. */
  method PassLoop(raw: Slice, size: u32, start: u32, key: u32)
    requires raw.Valid() && 12 <= size <= raw.len && start == size - 12
    requires key == Le32(raw.View(), size - 8)
    modifies raw.arr
    ensures WordsOf(Aligned(raw, size).View()) == UnpassedWords(old(WordsOf(Aligned(raw, size).View())))
    ensures SameOutside(old(raw.arr[..]), raw.arr[..], raw.off + size % 4, size - size % 4)
  {
    hide Xor32, BitXor, Le32, Word16, WordsOf, Unmasked, UnpassedWords, Processed, Minus32, SameOutside;
    var words := Aligned(raw, size);
    ghost var before := raw.arr[..];
    ghost var r := size % 4;
    ghost var c := WordsOf(words.View());
    ghost var n := |c|;
    assert n == size / 4 && size == 4 * n + r;
    AlignedWord(raw, size, n - 2);
    ProcessedStart(c);
    SameOutsideItself(before, words.off, words.len);
    var pos, ecx := start, key;
    ghost var i: nat := n - 3;
    ghost var cur := c;
    while pos >= 4
      invariant i <= n - 3 && pos == 4 * i + r
      invariant cur == WordsOf(words.View()) && Processed(c, cur, i, ecx)
      invariant SameOutside(before, raw.arr[..], words.off, words.len)
      decreases i
    {
      AlignedWord(raw, size, i);
      var edx := WordInSlice(raw, pos);
      edx := Xor32(edx, ecx);
      ProcessedStep(c, cur, i, ecx);
      ecx := Minus32(ecx, edx);
      ghost var between := raw.arr[..];
      StoreWord(words, i, raw.off + pos, edx);
      SameOutsideTwice(before, between, raw.arr[..], words.off, words.len);
      cur := cur[i := edx];
      MinusFour(pos);
      pos := Minus32(pos, 4);
      i := i - 1;
    }
    ProcessedAll(c, cur, ecx);
  }

  /** binary.LittleEndian.Uint32(raw[pos:pos+4]) */
  method WordInSlice(raw: Slice, pos: nat) returns (w: u32)
    requires raw.Valid() && pos + 4 <= raw.len
    ensures w == Le32(raw.View(), pos)
  {
    w := Le32(raw.arr[raw.off..raw.off + raw.len], pos);
  }

  lemma SameOutsideItself(s: seq<byte>, off: nat, n: nat)
    ensures SameOutside(s, s, off, n)
  {
  }

  /** A word counted from the end, seen through the slice and through its aligned part. */
  lemma AlignedWord(raw: Slice, size: nat, i: nat)
    requires raw.Valid() && size <= raw.len && i < size / 4
    ensures WordsOf(Aligned(raw, size).View())[i] == Le32(raw.View(), 4 * i + size % 4)
  {
    hide Word16, WordsOf;
    var words, whole, p, q := Aligned(raw, size).View(), raw.View(), 4 * i, 4 * i + size % 4;
    WordIs(words, i);
    assert words[p] == whole[q] && words[p + 1] == whole[q + 1];
    assert words[p + 2] == whole[q + 2] && words[p + 3] == whole[q + 3];
  }

  lemma MinusFour(pos: int)
    requires -8 <= pos < MODULUS
    ensures pos >= 4 ==> Minus32(pos, 4) == pos - 4
    ensures 0 <= pos < 4 ==> Minus32(pos, 4) == pos + 0xFFFF_FFFC
  {
  }

  lemma ProcessedStart(c: seq<u32>)
    requires |c| >= 3
    ensures Processed(c, c, |c| - 3, c[|c| - 2])
  {
    hide Unmasked;
  }

  /** Words above i are done, those up to i and the last two as they were; ecx is the pass's key there. */
  ghost predicate Processed(c: seq<u32>, cur: seq<u32>, i: nat, ecx: u32) {
    && |c| == |cur| >= 3 && i <= |c| - 3
    && cur[..i + 1] == c[..i + 1] && cur[|c| - 2..] == c[|c| - 2..]
    && Unmasked(c[1..|c| - 2], c[|c| - 2]).words == Unmasked(c[1..i + 1], ecx).words + cur[i + 1..|c| - 2]
  }

  lemma ProcessedStep(c: seq<u32>, cur: seq<u32>, i: nat, ecx: u32)
    requires Processed(c, cur, i, ecx) && i > 0
    ensures var w := Xor32(cur[i], ecx); Processed(c, cur[i := w], i - 1, Minus32(ecx, w))
  {
    hide Xor32, Minus32;
    var w := Xor32(cur[i], ecx);
    var next := cur[i := w];
    assert cur[i] == cur[..i + 1][i] == c[i];
    assert c[1..i + 1][..i - 1] == c[1..i];
    assert next[i..|c| - 2] == [w] + cur[i + 1..|c| - 2];
    var before := Unmasked(c[1..i], Minus32(ecx, w)).words;
    assert Unmasked(c[1..i + 1], ecx).words == before + [w];
    hide Unmasked;
    ConcatAssociates(before, [w], cur[i + 1..|c| - 2]);
    assert next[..i] == cur[..i + 1][..i] == c[..i + 1][..i] == c[..i];
  }

  lemma ProcessedAll(c: seq<u32>, cur: seq<u32>, ecx: u32)
    requires Processed(c, cur, 0, ecx)
    ensures cur == UnpassedWords(c)
  {
    assert Unmasked(c[1..1], ecx).words == [];
    hide Unmasked;
    assert cur == cur[..1] + cur[1..|c| - 2] + cur[|c| - 2..];
  }

  lemma WordIs(s: seq<byte>, i: nat)
    requires i < |s| / 4
    ensures WordsOf(s)[i] == Le32(s, 4 * i)
  {
  }

  /** Storing a word of a slice at its place in the array. */
  method StoreWord(words: Slice, ghost i: nat, p: nat, w: u32)
    requires words.Valid() && i < words.len / 4 && p == words.off + 4 * i
    modifies words.arr
    ensures WordsOf(words.View()) == old(WordsOf(words.View()))[i := w]
    ensures SameOutside(old(words.arr[..]), words.arr[..], words.off, words.len)
  {
    ghost var before := words.View();
    StoreUint32(words.arr, p, w);
    ghost var after := words.View();
    SliceOfSlice(words.arr[..], words.off, words.off + words.len, 4 * i, 4 * i + 4);
    hide Put32;
    forall k | 0 <= k < words.len && !(4 * i <= k < 4 * i + 4) ensures after[k] == before[k] {
      assert after[k] == words.arr[..][words.off + k];
    }
    WordReplaced(before, after, i, w);
  }

  lemma WordReplaced(before: seq<byte>, after: seq<byte>, i: nat, w: u32)
    requires |before| == |after| && i < |before| / 4
    requires after[4 * i..4 * i + 4] == Put32(w)
    requires forall k :: 0 <= k < |before| && !(4 * i <= k < 4 * i + 4) ==> after[k] == before[k]
    ensures WordsOf(after) == WordsOf(before)[i := w]
  {
    Le32Stored(after, 4 * i, w);
    hide Put32, Word16;
    forall j | 0 <= j < |before| / 4 && j != i ensures WordsOf(after)[j] == WordsOf(before)[j] {
      assert Le32(after, 4 * j) == Le32(before, 4 * j);
    }
  }

  /** newData := make([]byte, total); copy(newData, data) */
  method MovedTo(data: Slice, total: nat) returns (out: Slice)
    requires data.Valid() && data.len <= total
    ensures out.Valid() && fresh(out.arr) && out.len == total
    ensures out.View() == data.View() + Zeros(total - data.len)
  {
    var a := new byte[total](_ => 0);
    out := Slice(a, 0, total, total);
    forall i | 0 <= i < data.len { a[i] := data.arr[data.off + i]; }
  }

  /** for i := from; i < len; i++ { data[i] = 0 } */
  method ZeroFrom(data: Slice, from: nat)
    requires data.Valid() && from <= data.len
    modifies data.arr
    ensures data.View() == old(data.Upto(from).View()) + Zeros(data.len - from)
    ensures SameOutside(old(data.arr[..]), data.arr[..], data.off, data.len)
  {
    ghost var target := data.View()[..from] + Zeros(data.len - from);
    for i := from to data.len
      invariant forall j :: 0 <= j < i ==> data.arr[data.off + j] == target[j]
      invariant SameOutside(old(data.arr[..]), data.arr[..], data.off, data.len)
    {
      data.arr[data.off + i] := 0;
    }
    assert data.View() == target;
  }

  /** The checksum loop. */
  method XorWords(data: Slice) returns (chk: u32)
    requires data.Valid() && data.len % 4 == 0
    ensures chk == Checksum(data.View())
  {
    hide Xor32, BitXor, Le32, Word16;
    ghost var view := data.View();
    chk := 0;
    var i: nat := 0;
    while i < data.len
      invariant i <= data.len && i % 4 == 0
      invariant chk == Checksum(view[..i])
    {
      ChecksumStep(view, i);
      chk := Xor32(chk, Le32(data.arr[data.off..data.off + data.len], i));
      i := i + 4;
    }
    assert view[..i] == view;
  }

  lemma ChecksumStep(view: seq<byte>, i: nat)
    requires i + 4 <= |view|
    ensures Checksum(view[..i + 4]) == Xor32(Checksum(view[..i]), Le32(view, i))
  {
    hide Xor32, BitXor, Word16;
    assert view[..i + 4][..i] == view[..i];
  }

  /** The checksum goes into the last word. */
  method Seal(data: Slice, ghost body: seq<byte>)
    requires data.Valid() && data.len % 4 == 0 && |body| + CHECKSUM == data.len
    requires data.arr[data.off..data.off + |body|] == body
    modifies data.arr
    ensures data.View() == body + Put32(Checksum(body))
    ensures SameOutside(old(data.arr[..]), data.arr[..], data.off, data.len)
  {
    ghost var before := data.arr[..];
    hide Checksum, Put32, SameOutside;
    var n := data.len - CHECKSUM;
    var chk := XorWords(data.Upto(n));
    StoreUint32(data.arr, data.off + n, chk);
    TailReplaced(before, data.arr[..], data.off, n, Put32(chk));
  }

  /** From the zero-extended payload to the ciphertext. */
  method SealAndEncipher(cipher: Cipher, data: Slice, ghost payload: seq<byte>)
    requires data.Valid() && data.len % BLOCK == 0 && |payload| + CHECKSUM <= data.len
    requires data.View() == payload + Zeros(data.len - |payload|)
    modifies data.arr
    ensures data.View() == Enciphered(cipher, Padded(payload, data.len))
    ensures SameOutside(old(data.arr[..]), data.arr[..], data.off, data.len)
  {
    hide Checksum, Put32, SameOutside, Enciphered, Padded, Zeros;
    ghost var before := data.arr[..];
    BlocksAreWords(data.len);
    BodyOfPadding(before, data.off, payload, data.len);
    Seal(data, payload + Zeros(data.len - CHECKSUM - |payload|));
    ghost var sealed := data.arr[..];
    CipherRange(cipher, data);
    SameOutsideTwice(before, sealed, data.arr[..], data.off, data.len);
  }

  lemma BodyOfPadding(arr: seq<byte>, off: nat, payload: seq<byte>, total: nat)
    requires |payload| + CHECKSUM <= total && off + total <= |arr|
    requires arr[off..off + total] == payload + Zeros(total - |payload|)
    ensures var body := payload + Zeros(total - CHECKSUM - |payload|);
      arr[off..off + total - CHECKSUM] == body && Padded(payload, total) == body + Put32(Checksum(body))
  {
    hide Checksum, Put32;
    var body := payload + Zeros(total - CHECKSUM - |payload|);
    assert payload + Zeros(total - |payload|) == body + Zeros(CHECKSUM);
    hide Zeros;
    SliceOfSlice(arr, off, off + total, 0, total - CHECKSUM);
  }

  /** Overwrites a slice. */
  method CopyInto(data: Slice, s: seq<byte>)
    requires data.Valid() && data.len == |s|
    modifies data.arr
    ensures data.View() == s
    ensures SameOutside(old(data.arr[..]), data.arr[..], data.off, data.len)
  {
    forall i | 0 <= i < data.len { data.arr[data.off + i] := s[i]; }
  }

  // The library's block loops. Any in-place procedure with these effects will do.

  method CipherRange(cipher: Cipher, data: Slice)
    requires data.Valid() && data.len % BLOCK == 0
    modifies data.arr
    ensures data.View() == Enciphered(cipher, old(data.View()))
    ensures SameOutside(old(data.arr[..]), data.arr[..], data.off, data.len)
  {
    hide Enciphered;
    CopyInto(data, Enciphered(cipher, data.arr[data.off..data.off + data.len]));
  }

  method DecipherRange(cipher: Cipher, data: Slice)
    requires data.Valid() && data.len % BLOCK == 0
    modifies data.arr
    ensures data.View() == Deciphered(cipher, old(data.View()))
    ensures SameOutside(old(data.arr[..]), data.arr[..], data.off, data.len)
  {
    hide Deciphered;
    CopyInto(data, Deciphered(cipher, data.arr[data.off..data.off + data.len]));
  }
}
