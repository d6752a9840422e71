/** internal/crypto/game_crypt.go: the cipher object, its loops over a caller's buffer and its two keys. */
module GameCryptObject {
  import opened Bytes
  import opened Slices
  import opened RollingXor

  class GameCrypt {
    const inKey: array<byte>
    const outKey: array<byte>
    var init: bool

    ghost predicate Valid() {
      inKey.Length == 16 && outKey.Length == 16 && inKey != outKey
    }

    ghost function In(): Key
      requires Valid()
      reads inKey
    {
      KeyOf(inKey[..])
    }

    ghost function Out(): Key
      requires Valid()
      reads outKey
    {
      KeyOf(outKey[..])
    }

    constructor ()
      ensures Valid() && fresh(inKey) && fresh(outKey) && !init
    {
      inKey := new byte[16](_ => 0);
      outKey := new byte[16](_ => 0);
      init := false;
    }

    method Init(dynamicKey: seq<byte>)
      requires Valid() && |dynamicKey| >= 8
      modifies this`init, inKey, outKey
      ensures init && In() == InitialKey(dynamicKey) && Out() == InitialKey(dynamicKey)
      ensures inKey[..] == outKey[..] == dynamicKey[..8] + [0xc8, 0x27, 0x93, 0x01, 0xa1, 0x6c, 0x31, 0x97]
    {
      forall i | 0 <= i < 8 { inKey[i] := dynamicKey[i]; }
      forall i | 0 <= i < 8 { inKey[8 + i] := STATIC_KEY[i]; }
      forall i | 0 <= i < 16 { outKey[i] := inKey[i]; }
      init := true;
      assert inKey[..] == dynamicKey[..8] + STATIC_KEY;
      assert outKey[..] == inKey[..];
    }

    method Decrypt(data: Slice)
      requires Valid() && data.Valid() && data.arr != inKey && data.arr != outKey
      modifies data.arr, inKey
      ensures init ==> data.View() == Decrypted(old(In()), old(data.View())) && In() == Advance(old(In()), data.len)
      ensures !init ==> data.View() == old(data.View()) && In() == old(In())
      ensures SameOutside(old(data.arr[..]), data.arr[..], data.off, data.len)
    {
      if !init { return; }
      ghost var plain := Decrypted(In(), data.View());
      DecryptedByByte(data.View(), inKey[..]);
      DecryptBytes(data, inKey, plain);
      UpdateKey(inKey, data.len);
    }

    method Encrypt(data: Slice)
      requires Valid() && data.Valid() && data.arr != inKey && data.arr != outKey
      modifies data.arr, outKey
      ensures init ==> data.View() == Encrypted(old(Out()), old(data.View())) && Out() == Advance(old(Out()), data.len)
      ensures !init ==> data.View() == old(data.View()) && Out() == old(Out())
      ensures SameOutside(old(data.arr[..]), data.arr[..], data.off, data.len)
    {
      if !init { return; }
      ghost var cipher := Encrypted(Out(), data.View());
      EncryptedByByte(data.View(), outKey[..]);
      EncryptBytes(data, outKey, cipher);
      UpdateKey(outKey, data.len);
    }
  }

  // What each loop iteration has to store, byte by byte.

  ghost predicate DecryptsAt(key: seq<byte>, cipher: seq<byte>, plain: seq<byte>, i: nat)
    requires |key| == 16 && i < |plain| == |cipher|
  {
    plain[i] == Xor8(Xor8(cipher[i], key[i % 16]), Previous(cipher, i))
  }

  ghost predicate EncryptsAt(key: seq<byte>, plain: seq<byte>, cipher: seq<byte>, i: nat)
    requires |key| == 16 && i < |plain| == |cipher|
  {
    cipher[i] == Xor8(Xor8(plain[i], key[i % 16]), Previous(cipher, i))
  }

  lemma DecryptedByByte(cipher: seq<byte>, key: seq<byte>)
    requires |key| == 16
    ensures forall i :: 0 <= i < |cipher| ==> DecryptsAt(key, cipher, Decrypted(KeyOf(key), cipher), i)
  {
    KeyBytesOf(key);
    hide KeyBytes, KeyOf, BitXor, Xor8;
  }

  lemma EncryptedByByte(plain: seq<byte>, key: seq<byte>)
    requires |key| == 16
    ensures forall i :: 0 <= i < |plain| ==> EncryptsAt(key, plain, Encrypted(KeyOf(key), plain), i)
  {
    KeyBytesOf(key);
    hide KeyBytes, KeyOf, BitXor, Xor8;
  }

  /** The loop of Decrypt. */
  method DecryptBytes(data: Slice, key: array<byte>, ghost plain: seq<byte>)
    requires key.Length == 16 && data.Valid() && data.arr != key && |plain| == data.len
    requires forall i :: 0 <= i < data.len ==> DecryptsAt(key[..], data.View(), plain, i)
    modifies data.arr
    ensures data.View() == plain
    ensures SameOutside(old(data.arr[..]), data.arr[..], data.off, data.len)
  {
    ghost var cipher := data.View();
    hide BitXor, Xor8;
    var prev: byte := 0;
    for i := 0 to data.len
      invariant prev == Previous(cipher, i)
      invariant forall j :: 0 <= j < i ==> data.arr[data.off + j] == plain[j]
      invariant forall j :: i <= j < data.len ==> data.arr[data.off + j] == cipher[j]
      invariant SameOutside(old(data.arr[..]), data.arr[..], data.off, data.len)
    {
      assert DecryptsAt(key[..], cipher, plain, i);
      var temp := data.arr[data.off + i];
      data.arr[data.off + i] := Xor8(Xor8(temp, key[i % 16]), prev);
      prev := temp;
    }
    assert data.View() == plain;
  }

  /** The loop of Encrypt. */
  method EncryptBytes(data: Slice, key: array<byte>, ghost cipher: seq<byte>)
    requires key.Length == 16 && data.Valid() && data.arr != key && |cipher| == data.len
    requires forall i :: 0 <= i < data.len ==> EncryptsAt(key[..], data.View(), cipher, i)
    modifies data.arr
    ensures data.View() == cipher
    ensures SameOutside(old(data.arr[..]), data.arr[..], data.off, data.len)
  {
    ghost var plain := data.View();
    hide BitXor, Xor8;
    var prev: byte := 0;
    for i := 0 to data.len
      invariant prev == Previous(cipher, i)
      invariant forall j :: 0 <= j < i ==> data.arr[data.off + j] == cipher[j]
      invariant forall j :: i <= j < data.len ==> data.arr[data.off + j] == plain[j]
      invariant SameOutside(old(data.arr[..]), data.arr[..], data.off, data.len)
    {
      assert EncryptsAt(key[..], plain, cipher, i);
      data.arr[data.off + i] := Xor8(Xor8(data.arr[data.off + i], key[i % 16]), prev);
      prev := data.arr[data.off + i];
    }
    assert data.View() == cipher;
  }

  lemma KeyBytesOf(s: seq<byte>)
    requires |s| == 16
    ensures KeyBytes(KeyOf(s)) == s
  {
    Put32Le32(s, 8);
    assert s == s[..8] + s[8..12] + s[12..];
  }

  method UpdateKey(key: array<byte>, size: nat)
    requires key.Length == 16
    modifies key
    ensures KeyOf(key[..]) == Advance(old(KeyOf(key[..])), size)
    ensures Le32(key[..], 8) == (old(Le32(key[..], 8)) + size) % 0x1_0000_0000
    ensures key[..8] == old(key[..8]) && key[12..] == old(key[12..])
  {
    hide Put32, Le32;
    var counter := Le32(key[..], 8);
    var w := (counter + size) % 0x1_0000_0000;
    StoreUint32(key, 8, w);
    Le32Stored(key[..], 8, w);
  }
}
