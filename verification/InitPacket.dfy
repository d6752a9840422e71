/**
 * The login server's first packet, from the wire to its fields (internal/client/client.go:110-138,
 * internal/net/protocol.go:107-139, internal/crypto/server_crypt.go:97-123).
 */
module InitPacket {
  import opened Bytes
  import opened LoginCipher
  import opened WordRuns

  const OP_INIT: byte := 0x00
  const MIN_SIZE: nat := 170
  const KEY_OFFSET: nat := 153
  const FIELDS_END: nat := KEY_OFFSET + 16

  datatype InitError = TooShort | WrongOpcode
  datatype Init = Init(sessionId: u32, protocolVersion: u32, modulus: seq<byte>, blowfishKey: seq<byte>)
  datatype Decoding = Decoded(init: Init) | Refused(error: InitError)

  /** The minimal size already covers the key, which therefore is never missing. */
  function DecodeInit(data: seq<byte>): (d: Decoding)
    ensures d.Decoded? <==> |data| >= 170 && data[0] == 0x00
  {
    if |data| < MIN_SIZE then Refused(TooShort)
    else if data[0] != OP_INIT then Refused(WrongOpcode)
    else Decoded(Init(Le32(data, 1), Le32(data, 5), data[9..137], data[KEY_OFFSET..FIELDS_END]))
  }

  /** The greeting as the server lays it out; sixteen bytes lie between modulus and key. */
  function InitBytes(init: Init, between: seq<byte>, trailing: seq<byte>): seq<byte> {
    [0x00] + Put32(init.sessionId) + Put32(init.protocolVersion) + init.modulus + between + init.blowfishKey
    + trailing
  }

  /** Every field comes back from where it lies. */
  lemma DecodeInitRoundTrip(init: Init, between: seq<byte>, trailing: seq<byte>)
    requires |init.modulus| == 128 && |between| == 16 && |init.blowfishKey| == 16 && |trailing| > 0
    ensures DecodeInit(InitBytes(init, between, trailing)) == Decoded(init)
  {
    hide Put32, Le32;
    var data := InitBytes(init, between, trailing);
    assert data[1..5] == Put32(init.sessionId) && data[5..9] == Put32(init.protocolVersion);
    Le32Stored(data, 1, init.sessionId);
    Le32Stored(data, 5, init.protocolVersion);
    assert data[9..137] == init.modulus && data[KEY_OFFSET..FIELDS_END] == init.blowfishKey;
  }

  /** What DecryptInit leaves in the buffer: a packet that is no whole number of blocks stays as it came. */
  function Opened(c: Cipher, wire: seq<byte>): seq<byte> {
    if |wire| % BLOCK == 0 && |wire| >= 16 then Stored([], UnpassedWords(WordsOf(Deciphered(c, wire)))) else wire
  }

  /** What the server sends: the XOR pass, then block encryption. */
  function ServerSide(c: Cipher, words: seq<u32>, key: u32): seq<byte>
    requires |words| >= 4 && |words| % 2 == 0
  {
    Enciphered(c, Stored([], PassedWords(words, key)))
  }

  /** Of two packets that agree up to byte 168, that byte alone decides whether they decode alike. */
  lemma LastByteDecides(s: seq<byte>, t: seq<byte>)
    requires |s| == |t| >= MIN_SIZE && s[0] == t[0] == OP_INIT
    requires s[..168] == t[..168]
    ensures DecodeInit(s) == DecodeInit(t) <==> s[168] == t[168]
  {
    hide Word16;
    assert forall j :: 0 <= j < 168 ==> s[j] == s[..168][j] == t[j];
    assert s[9..137] == t[9..137];
    assert s[KEY_OFFSET..FIELDS_END] == s[KEY_OFFSET..168] + [s[168]];
    assert t[KEY_OFFSET..FIELDS_END] == t[KEY_OFFSET..168] + [t[168]];
    assert s[KEY_OFFSET..168] == t[KEY_OFFSET..168];
    if s[168] != t[168] {
      assert s[KEY_OFFSET..FIELDS_END][15] != t[KEY_OFFSET..FIELDS_END][15];
    }
  }

  /**
   * The pass leaves its key in the word before the last. From 46 words on that word lies behind the fields, and
   * they come through whatever the key; in the shortest packet it holds the last byte of the Blowfish key.
   */
  lemma InitComesThrough(c: Cipher, words: seq<u32>, key: u32)
    requires |words| >= 44 && |words| % 2 == 0 && words[0] % 0x100 == OP_INIT
    ensures var n := |words|; var k := Masked(words[1..n - 2], key).key;
      DecodeInit(Opened(c, ServerSide(c, words, key))) == DecodeInit(Stored([], words))
      <==> n >= 46 || k % 0x100 == words[n - 2] % 0x100
  {
    hide Stored, Masked, Opened, ServerSide, DecodeInit, PassedWords, UnpassedWords, Enciphered, Deciphered, WordsOf;
    OpenedIs(c, words, key);
    var n := |words|;
    FieldsSurvive(words, Masked(words[1..n - 2], key).key);
  }

  lemma FieldsSurvive(words: seq<u32>, k: u32)
    requires |words| >= 44 && |words| % 2 == 0 && words[0] % 0x100 == OP_INIT
    ensures var n := |words|;
      DecodeInit(Stored([], words[n - 2 := k])) == DecodeInit(Stored([], words))
      <==> n >= 46 || k % 0x100 == words[n - 2] % 0x100
  {
    hide Stored, Put32, DecodeInit;
    var n := |words|;
    var sent, got := Stored([], words), Stored([], words[n - 2 := k]);
    assert got[..168] == sent[..168] by {
      forall j | 0 <= j < 168 ensures got[j] == sent[j] { StoredUpdate(words, n - 2, k, j); }
    }
    LowByte(words, 0);
    assert got[0] == got[..168][0];
    LastByteDecides(got, sent);
    if n >= 46 {
      StoredUpdate(words, n - 2, k, 168);
    } else {
      LowByte(words, n - 2);
      LowByte(words[n - 2 := k], n - 2);
    }
  }

  lemma LowByte(words: seq<u32>, i: nat)
    requires i < |words|
    ensures Stored([], words)[4 * i] == words[i] % 0x100
  {
    hide Stored;
    StoredWord(words, i);
    FirstByteOfWord(words[i]);
    hide Put32;
  }

  lemma FirstByteOfWord(w: u32)
    ensures Put32(w)[0] == w % 0x100
  {
  }

  lemma OpenedIs(c: Cipher, words: seq<u32>, key: u32)
    requires |words| >= 4 && |words| % 2 == 0
    ensures var n := |words|;
      Opened(c, ServerSide(c, words, key)) == Stored([], words[n - 2 := Masked(words[1..n - 2], key).key])
  {
    hide Enciphered, Deciphered, UnpassedWords, WordsOf, Stored, PassedWords, Masked;
    InitPacketRecovered(c, words, key);
    BlockCount(|words|);
  }

  lemma BlockCount(n: nat)
    requires n % 2 == 0
    ensures 4 * n % BLOCK == 0
  {
  }
}
