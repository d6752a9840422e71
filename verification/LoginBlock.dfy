/** The credentials block of a login request (internal/net/protocol.go:151-177). */
module LoginBlock {
  import opened Bytes
  import opened Slices
  import opened Rsa

  const ACCOUNT: nat := 0x5E
  const PASSWORD: nat := 0x6C
  const SESSION: nat := 0x7C
  const ACCOUNT_SIZE: nat := PASSWORD - ACCOUNT
  const PASSWORD_SIZE: nat := SESSION - PASSWORD

  const OP_LOGIN_REQUEST: byte := 0x00
  const REQUEST_SIZE: nat := 146

  /** Byte by byte: the session id hides the password, which hides the account, where they overlap. */
  function BlockByte(account: seq<byte>, password: seq<byte>, session: u32, i: nat): byte
    requires i < MODULUS_SIZE
  {
    if i >= SESSION then Put32(session)[i - SESSION]
    else if PASSWORD <= i < PASSWORD + |password| then password[i - PASSWORD]
    else if ACCOUNT <= i < ACCOUNT + |account| then account[i - ACCOUNT]
    else 0
  }

  function Credentials(account: seq<byte>, password: seq<byte>, session: u32): (block: seq<byte>)
    ensures |block| == MODULUS_SIZE
  {
    seq(MODULUS_SIZE, i requires 0 <= i < MODULUS_SIZE => BlockByte(account, password, session, i))
  }

  /** copy(block[off:], s): what does not fit is dropped. */
  method CopyClipped(block: array<byte>, off: nat, s: seq<byte>)
    requires off <= block.Length
    modifies block
    ensures forall i :: 0 <= i < block.Length ==>
      block[i] == if off <= i < off + |s| then s[i - off] else old(block[i])
  {
    forall i | off <= i < block.Length && i < off + |s| { block[i] := s[i - off]; }
  }

  method FillBlock(account: seq<byte>, password: seq<byte>, session: u32) returns (block: array<byte>)
    ensures fresh(block) && block[..] == Credentials(account, password, session)
  {
    hide Put32;
    block := new byte[MODULUS_SIZE](_ => 0);
    CopyClipped(block, ACCOUNT, account);
    CopyClipped(block, PASSWORD, password);
    ghost var before := block[..];
    StoreUint32(block, SESSION, session);
    forall i | 0 <= i < MODULUS_SIZE ensures block[i] == BlockByte(account, password, session, i) {
      if i >= SESSION {
        assert block[i] == block[SESSION..SESSION + 4][i - SESSION];
      } else {
        assert block[..][i] == before[i];
      }
    }
  }

  /** Opcode, the encrypted block (cut at 128 bytes, should a modulus of zero make it longer), 17 zeros. */
  function Request(cipher: seq<byte>): (s: seq<byte>)
    requires |cipher| >= MODULUS_SIZE
    ensures |s| == REQUEST_SIZE
  {
    [OP_LOGIN_REQUEST] + cipher[..MODULUS_SIZE] + Zeros(17)
  }

  method EncodeLoginRequest(account: seq<byte>, password: seq<byte>, session: u32, rsa: RSA)
    returns (payload: seq<byte>)
    ensures payload == Request(Rsa.Block(ModExp(Os2ip(Credentials(account, password, session)), rsa.e, rsa.n)))
    ensures |payload| == 146 && payload[0] == 0x00 && payload[129..] == Zeros(17)
    ensures 0 < rsa.n < Power(256, 128) ==>
      Os2ip(payload[1..129]) == Power(Os2ip(Credentials(account, password, session)), rsa.e) % rsa.n
  {
    hide Power, Os2ip, Credentials, ModExp;
    var block := FillBlock(account, password, session);
    var encrypted := rsa.Encrypt(block[..]);
    BlockKeepsNumber(ModExp(Os2ip(block[..]), rsa.e, rsa.n));
    payload := Request(encrypted);
    assert payload[1..129] == encrypted[..MODULUS_SIZE];
    assert |encrypted| == MODULUS_SIZE ==> encrypted[..MODULUS_SIZE] == encrypted;
  }

  // ---- What the block says ----

  /** A field as the server reads it: up to its first zero byte. */
  function UpToNul(s: seq<byte>): seq<byte> {
    if s == [] || s[0] == 0 then [] else [s[0]] + UpToNul(s[1..])
  }

  lemma {:induction false} UpToNulOfText(t: seq<byte>, n: nat)
    requires 0 !in t
    ensures UpToNul(t + Zeros(n)) == t
  {
    if t != [] {
      assert (t + Zeros(n))[1..] == t[1..] + Zeros(n);
      UpToNulOfText(t[1..], n);
    }
  }

  lemma {:induction false} UpToNulShorter(s: seq<byte>)
    ensures |UpToNul(s)| <= |s|
  {
    if s != [] { UpToNulShorter(s[1..]); }
  }

  function AccountOf(block: seq<byte>): seq<byte>
    requires |block| == MODULUS_SIZE
  {
    UpToNul(block[0x5e..0x6c])
  }

  function PasswordOf(block: seq<byte>): seq<byte>
    requires |block| == MODULUS_SIZE
  {
    UpToNul(block[0x6c..0x7c])
  }

  /** Fields that fit, and what lies around them: the account at 0x5e, the password at 0x6c, the session id at 0x7c. */
  lemma CredentialsBytes(account: seq<byte>, password: seq<byte>, session: u32)
    requires |account| <= 14 && |password| <= 16
    ensures Credentials(account, password, session)
      == Zeros(94) + (account + Zeros(14 - |account|)) + (password + Zeros(16 - |password|)) + Put32(session)
  {
    hide Put32;
  }

  /** The fields come back exactly when both fit; the session id always does. */
  lemma CredentialsComeBack(account: seq<byte>, password: seq<byte>, session: u32)
    requires 0 !in account && 0 !in password
    ensures var block := Credentials(account, password, session);
      && Le32(block, 0x7c) == session
      && (AccountOf(block) == account && PasswordOf(block) == password
          <==> |account| <= 14 && |password| <= 16)
  {
    var block := Credentials(account, password, session);
    assert block[SESSION..SESSION + 4] == Put32(session);
    Le32Stored(block, SESSION, session);
    UpToNulShorter(block[ACCOUNT..PASSWORD]);
    UpToNulShorter(block[PASSWORD..SESSION]);
    if |account| <= ACCOUNT_SIZE && |password| <= PASSWORD_SIZE {
      assert block[ACCOUNT..PASSWORD] == account + Zeros(ACCOUNT_SIZE - |account|);
      assert block[PASSWORD..SESSION] == password + Zeros(PASSWORD_SIZE - |password|);
      UpToNulOfText(account, ACCOUNT_SIZE - |account|);
      UpToNulOfText(password, PASSWORD_SIZE - |password|);
    }
  }

  /** Two logins never share a block while their fields fit. */
  lemma CredentialsInjective(a1: seq<byte>, p1: seq<byte>, s1: u32, a2: seq<byte>, p2: seq<byte>, s2: u32)
    requires 0 !in a1 && 0 !in p1 && 0 !in a2 && 0 !in p2
    requires |a1| <= 14 && |p1| <= 16 && |a2| <= 14 && |p2| <= 16
    requires Credentials(a1, p1, s1) == Credentials(a2, p2, s2)
    ensures a1 == a2 && p1 == p2 && s1 == s2
  {
    hide Credentials, AccountOf, PasswordOf, Le32;
    CredentialsComeBack(a1, p1, s1);
    CredentialsComeBack(a2, p2, s2);
  }

  /**
   * Longer fields collide: bytes of the account under the password, an account that runs into the field of a missing
   * password, and bytes of the password past its field.
   */
  lemma LongFieldsCollide(account: seq<byte>, password: seq<byte>, session: u32, b: byte)
    ensures |account| > 14 && password != [] ==>
      Credentials(account, password, session) == Credentials(account[14 := b], password, session)
    ensures |account| > 14 && password == [] ==>
      Credentials(account, password, session) == Credentials(account[..14], account[14..], session)
    ensures |password| > 16 ==>
      Credentials(account, password, session) == Credentials(account, password[..16], session)
  {
    hide Put32;
    var block := Credentials(account, password, session);
    if |account| > ACCOUNT_SIZE && password != [] {
      var other := Credentials(account[ACCOUNT_SIZE := b], password, session);
      assert forall i :: 0 <= i < MODULUS_SIZE ==> block[i] == other[i];
    }
    if |account| > ACCOUNT_SIZE && password == [] {
      var other := Credentials(account[..ACCOUNT_SIZE], account[ACCOUNT_SIZE..], session);
      assert forall i :: 0 <= i < MODULUS_SIZE ==> block[i] == other[i];
    }
    if |password| > PASSWORD_SIZE {
      var other := Credentials(account, password[..PASSWORD_SIZE], session);
      assert forall i :: 0 <= i < MODULUS_SIZE ==> block[i] == other[i];
    }
  }

  /** As a number the block is small: only its last 34 bytes are ever set. */
  lemma CredentialsAreSmall(account: seq<byte>, password: seq<byte>, session: u32)
    ensures Os2ip(Credentials(account, password, session)) < Power(256, 34)
  {
    hide Power, Os2ip, Put32;
    var block := Credentials(account, password, session);
    assert block == Zeros(ACCOUNT) + block[ACCOUNT..];
    Os2ipLeadingZeros(ACCOUNT, block[ACCOUNT..]);
    Os2ipBound(block[ACCOUNT..]);
  }
}
