/**
 * The server's side of internal/net/protocol.go: which byte of a packet holds what, and a reader that gets every packet
 * back from its bytes alone.
 */
module ServerReader {
  import opened Bytes
  import opened Packets
  import opened Sequences
  import opened WordRuns
  import opened WideStrings
  import opened PacketIO

  // ---- What lies where ----

  /** A little-endian word, negative numbers in two's complement. */
  predicate Word(data: seq<byte>, p: nat, i: int) {
    p + 4 <= |data| && Le32(data, p) as int == i % 0x1_0000_0000
  }

  /** A text right behind the opcode: every byte with a zero behind it, and two zeros. */
  predicate TextLies(data: seq<byte>, text: seq<byte>) {
    && 2 * |text| + 3 <= |data|
    && (forall i: nat :: i < |text| ==> data[2 * i + 1] == text[i] && data[2 * i + 2] == 0)
    && data[2 * |text| + 1] == 0 && data[2 * |text| + 2] == 0
  }

  predicate ZerosFrom(data: seq<byte>, p: nat) {
    forall i :: p <= i < |data| ==> data[i] == 0
  }

  predicate Starts(data: seq<byte>, n: nat, opcode: byte) {
    |data| == n && n > 0 && data[0] == opcode
  }

  /** Length, opcode and fields of every game packet. */
  predicate OnWire(p: Packet, data: seq<byte>) {
    match p
    case ProtocolVersion(version) => Starts(data, 5, 0x0e) && Word(data, 1, version)
    case AuthLogin(account, playKey1, playKey2, loginKey1, loginKey2) => (
      var n := 2 * |account| + 3;
      && Starts(data, n + 16, 0x2b) && TextLies(data, account)
      && Word(data, n, playKey2) && Word(data, n + 4, playKey1)
      && Word(data, n + 8, loginKey1) && Word(data, n + 12, loginKey2))
    case CharacterDelete(slot) => Starts(data, 5, 0x0d) && Word(data, 1, slot)
    case CharacterRestore(slot) => Starts(data, 5, 0x7b) && Word(data, 1, slot)
    case CharacterCreate(name, race, isFemale, classId, hairStyle, hairColor, face) => (
      var n := 2 * |name| + 3;
      && Starts(data, n + 48, 0x0c) && TextLies(data, name)
      && Word(data, n, race) && Word(data, n + 4, if isFemale then 1 else 0) && Word(data, n + 8, classId)
      && Word(data, n + 12, 40) && Word(data, n + 16, 40) && Word(data, n + 20, 40)
      && Word(data, n + 24, 40) && Word(data, n + 28, 40) && Word(data, n + 32, 40)
      && Word(data, n + 36, hairStyle) && Word(data, n + 40, hairColor) && Word(data, n + 44, face))
    case CharacterSelect(slot) => Starts(data, 19, 0x12) && Word(data, 1, slot) && ZerosFrom(data, 5)
    case MoveToLocation(tx, ty, tz, ox, oy, oz) => (
      && Starts(data, 29, 0x0f) && Word(data, 1, tx) && Word(data, 5, ty) && Word(data, 9, tz)
      && Word(data, 13, ox) && Word(data, 17, oy) && Word(data, 21, oz) && Word(data, 25, 1))
    case ValidatePosition(x, y, z, heading) => (
      && Starts(data, 21, 0x59) && Word(data, 1, x) && Word(data, 5, y) && Word(data, 9, z)
      && Word(data, 13, heading) && Word(data, 17, 0))
    case ActionUse(actionId, ctrl, shift) => (
      && Starts(data, 10, 0x56) && Word(data, 1, actionId) && Word(data, 5, if ctrl then 1 else 0)
      && data[9] == if shift then 1 else 0)
    case UseItem(objectId, ctrl) =>
      Starts(data, 9, 0x19) && Word(data, 1, objectId) && Word(data, 5, if ctrl then 1 else 0)
    case Action(objectId, x, y, z, actionByte) => (
      && Starts(data, 18, 0x1f) && Word(data, 1, objectId)
      && Word(data, 5, x) && Word(data, 9, y) && Word(data, 13, z) && data[17] == actionByte)
    case Attack(objectId, x, y, z, attackByte) => (
      && Starts(data, 18, 0x01) && Word(data, 1, objectId)
      && Word(data, 5, x) && Word(data, 9, y) && Word(data, 13, z) && data[17] == attackByte)
    case MagicSkillUse(magicId, ctrl, shift, left) => (
      && Starts(data, 13, 0x39) && Word(data, 1, magicId) && Word(data, 5, if ctrl then 1 else 0)
      && data[9] == (if shift then 1 else 0) && data[10..13] == left)
    case EnterWorld => Starts(data, 105, 0x11) && ZerosFrom(data, 1)
    case Say2(text, chatType) =>
      Starts(data, 2 * |text| + 7, 0x49) && TextLies(data, text) && Word(data, 2 * |text| + 3, chatType)
    case Appearing => data == [0x3a]
    case Logout => data == [0x00]
  }

  /** And of every request to the login server. */
  predicate LoginOnWire(p: LoginPacket, data: seq<byte>) {
    match p
    case AuthGG(sessionId) => Starts(data, 25, 0x07) && Word(data, 1, sessionId) && ZerosFrom(data, 5)
    case ServerList(loginKey1, loginKey2) =>
      Starts(data, 9, 0x05) && Word(data, 1, loginKey1) && Word(data, 5, loginKey2)
    case ServerLogin(loginKey1, loginKey2, serverId) =>
      Starts(data, 10, 0x02) && Word(data, 1, loginKey1) && Word(data, 5, loginKey2) && data[9] == serverId
  }

  // ---- The encoding puts it there ----

  ghost predicate WordsLie(data: seq<byte>, base: nat, words: seq<u32>) {
    && base + 4 * |words| <= |data|
    && forall k: nat :: k < |words| ==> Le32(data, base + 4 * k) == words[k]
  }

  lemma {:induction false} StoredWordsLie(head: seq<byte>, words: seq<u32>, tail: seq<byte>)
    ensures WordsLie(Stored(head, words) + tail, |head|, words)
    decreases |words|
  {
    if words != [] {
      var n := |words| - 1;
      hide Put32, Le32, WordsLie;
      StoredWordsLie(head, words[..n], Put32(words[n]) + tail);
      ConcatAssociates(Stored(head, words[..n]), Put32(words[n]), tail);
      OneMoreLies(Stored(head, words[..n]), |head|, words, tail);
    } else {
      assert WordsLie(Stored(head, words) + tail, |head|, words);
    }
  }

  lemma OneMoreLies(before: seq<byte>, base: nat, words: seq<u32>, tail: seq<byte>)
    requires words != [] && |before| == base + 4 * (|words| - 1)
    requires WordsLie(before + (Put32(words[|words| - 1]) + tail), base, words[..|words| - 1])
    ensures WordsLie(before + (Put32(words[|words| - 1]) + tail), base, words)
  {
    hide Put32, Le32;
    var n := |words| - 1;
    var data := before + (Put32(words[n]) + tail);
    assert data[|before|..|before| + 4] == Put32(words[n]);
    Le32Stored(data, |before|, words[n]);
    forall k: nat | k < |words| ensures Le32(data, base + 4 * k) == words[k] {
      if k < n { assert Le32(data, base + 4 * k) == words[..n][k]; }
    }
  }

  /** Head, words and tail of a payload. */
  ghost predicate Parts(p: Packet, data: seq<byte>) {
    var h := Head(Opcode(p), HasText(p), Text(p));
    && |data| == |h| + 4 * |Words(p)| + |Tail(p)|
    && data[..|h|] == h && WordsLie(data, |h|, Words(p)) && data[|h| + 4 * |Words(p)|..] == Tail(p)
  }

  lemma PayloadHasParts(p: Packet)
    ensures Parts(p, Payload(p))
  {
    hide Stored, Words, Tail, Head, Opcode, HasText, Text;
    var h := Head(Opcode(p), HasText(p), Text(p));
    StoredPrefix(h, Words(p));
    StoredWordsLie(h, Words(p), Tail(p));
    assert Payload(p)[..|h|] == Stored(h, Words(p))[..|h|];
  }

  lemma TwosComplement(i: int32)
    ensures ToU32(i) as int == i % 0x1_0000_0000
  {
  }

  lemma SmallWord(w: u32)
    ensures w as int == w as int % 0x1_0000_0000
  {
  }

  lemma IntHere(data: seq<byte>, base: nat, words: seq<u32>, k: nat, i: int32)
    requires WordsLie(data, base, words) && k < |words| && words[k] == ToU32(i)
    ensures Word(data, base + 4 * k, i)
  {
    TwosComplement(i);
    hide Le32, ToU32;
    assert Le32(data, base + 4 * k) == words[k];
  }

  lemma WordHere(data: seq<byte>, base: nat, words: seq<u32>, k: nat)
    requires WordsLie(data, base, words) && k < |words|
    ensures Word(data, base + 4 * k, words[k])
  {
    SmallWord(words[k]);
    hide Le32;
    assert Le32(data, base + 4 * k) == words[k];
  }

  lemma TextHere(data: seq<byte>, opcode: byte, text: seq<byte>)
    requires var h := Head(opcode, true, text); |h| <= |data| && data[..|h|] == h
    ensures TextLies(data, text) && data[0] == opcode
  {
    hide Widen;
    var h := Head(opcode, true, text);
    assert forall i: nat :: i < |h| ==> data[i] == h[i];
    forall i: nat | i < |text| ensures data[2 * i + 1] == text[i] && data[2 * i + 2] == 0 {
      assert h[2 * i + 1] == Widen(text)[2 * i] && h[2 * i + 2] == Widen(text)[2 * i + 1];
    }
  }

  /** Every field of every packet lies at its place. */
  lemma PayloadOnWire(p: Packet)
    ensures OnWire(p, Payload(p))
  {
    hide Payload, OnWire;
    PayloadHasParts(p);
    match p {
      case AuthLogin(_, _, _, _, _) => LongOnWire(p, Payload(p));
      case CharacterCreate(_, _, _, _, _, _, _) => CreationOnWire(p, Payload(p));
      case Say2(_, _) => LongOnWire(p, Payload(p));
      case MoveToLocation(_, _, _, _, _, _) => MoveOnWire(p, Payload(p));
      case ValidatePosition(_, _, _, _) => PositionOnWire(p, Payload(p));
      case Action(_, _, _, _, _) => TargetOnWire(p, Payload(p));
      case Attack(_, _, _, _, _) => TargetOnWire(p, Payload(p));
      case _ => ShortOnWire(p, Payload(p));
    }
  }

  lemma LongOnWire(p: Packet, data: seq<byte>)
    requires Parts(p, data) && (p.AuthLogin? || p.Say2?)
    ensures OnWire(p, data)
  {
    hide Widen, WordsLie, TextLies, ToU32, Word;
    var n, w := 2 * |Text(p)| + 3, Words(p);
    TextHere(data, Opcode(p), Text(p));
    match p {
      case AuthLogin(_, _, _, _, _) =>
        WordHere(data, n, w, 0);
        WordHere(data, n, w, 1);
        WordHere(data, n, w, 2);
        WordHere(data, n, w, 3);
      case Say2(_, chatType) =>
        IntHere(data, n, w, 0, chatType);
    }
  }

  lemma CreationOnWire(p: Packet, data: seq<byte>)
    requires Parts(p, data) && p.CharacterCreate?
    ensures OnWire(p, data)
  {
    hide Widen, WordsLie, TextLies, ToU32, Word;
    var n, w := 2 * |p.name| + 3, Words(p);
    TextHere(data, 0x0c, p.name);
    IntHere(data, n, w, 0, p.race);
    WordHere(data, n, w, 1);
    IntHere(data, n, w, 2, p.classId);
    CreationConstants(data, n, w);
    IntHere(data, n, w, 9, p.hairStyle);
    IntHere(data, n, w, 10, p.hairColor);
    IntHere(data, n, w, 11, p.face);
  }

  lemma CreationConstants(data: seq<byte>, n: nat, w: seq<u32>)
    requires WordsLie(data, n, w) && |w| == 12 && forall k :: 3 <= k < 9 ==> w[k] == 40
    ensures Word(data, n + 12, 40) && Word(data, n + 16, 40) && Word(data, n + 20, 40)
    ensures Word(data, n + 24, 40) && Word(data, n + 28, 40) && Word(data, n + 32, 40)
  {
    hide WordsLie, Word;
    WordHere(data, n, w, 3);
    WordHere(data, n, w, 4);
    WordHere(data, n, w, 5);
    WordHere(data, n, w, 6);
    WordHere(data, n, w, 7);
    WordHere(data, n, w, 8);
  }

  lemma MoveOnWire(p: Packet, data: seq<byte>)
    requires Parts(p, data) && p.MoveToLocation?
    ensures OnWire(p, data)
  {
    hide WordsLie, ToU32, Word;
    var w := Words(p);
    assert data[0] == data[..1][0];
    IntHere(data, 1, w, 0, p.tx);
    IntHere(data, 1, w, 1, p.ty);
    IntHere(data, 1, w, 2, p.tz);
    IntHere(data, 1, w, 3, p.ox);
    IntHere(data, 1, w, 4, p.oy);
    IntHere(data, 1, w, 5, p.oz);
    WordHere(data, 1, w, 6);
  }

  lemma PositionOnWire(p: Packet, data: seq<byte>)
    requires Parts(p, data) && p.ValidatePosition?
    ensures OnWire(p, data)
  {
    hide WordsLie, ToU32, Word;
    var w := Words(p);
    assert data[0] == data[..1][0];
    IntHere(data, 1, w, 0, p.x);
    IntHere(data, 1, w, 1, p.y);
    IntHere(data, 1, w, 2, p.z);
    IntHere(data, 1, w, 3, p.heading);
    WordHere(data, 1, w, 4);
  }

  lemma TargetOnWire(p: Packet, data: seq<byte>)
    requires Parts(p, data) && (p.Action? || p.Attack?)
    ensures OnWire(p, data)
  {
    hide WordsLie, ToU32, Word;
    var w := Words(p);
    assert data[0] == data[..1][0];
    WordHere(data, 1, w, 0);
    IntHere(data, 1, w, 1, p.x);
    IntHere(data, 1, w, 2, p.y);
    IntHere(data, 1, w, 3, p.z);
    assert data[17] == data[17..][0];
  }

  lemma ShortOnWire(p: Packet, data: seq<byte>)
    requires Parts(p, data)
    requires !p.AuthLogin? && !p.CharacterCreate? && !p.Say2?
    requires !p.MoveToLocation? && !p.ValidatePosition? && !p.Action? && !p.Attack?
    ensures OnWire(p, data)
  {
    hide WordsLie, ToU32, Word, Zeros;
    var w := Words(p);
    assert data[0] == data[..1][0];
    match p {
      case ProtocolVersion(version) =>
        IntHere(data, 1, w, 0, version);
      case CharacterDelete(slot) =>
        IntHere(data, 1, w, 0, slot);
      case CharacterRestore(slot) =>
        IntHere(data, 1, w, 0, slot);
      case CharacterSelect(slot) =>
        IntHere(data, 1, w, 0, slot);
        TailLies(data, 5);
      case ActionUse(id, _, _) =>
        IntHere(data, 1, w, 0, id);
        WordHere(data, 1, w, 1);
        assert data[9] == data[9..][0];
      case UseItem(_, _) =>
        WordHere(data, 1, w, 0);
        WordHere(data, 1, w, 1);
      case MagicSkillUse(_, _, _, left) =>
        WordHere(data, 1, w, 0);
        WordHere(data, 1, w, 1);
        assert data[9] == data[9..][0] && data[10..13] == data[9..][1..];
      case EnterWorld =>
        TailLies(data, 1);
      case _ =>
    }
  }

  lemma TailLies(data: seq<byte>, p: nat)
    requires p <= |data| && data[p..] == Zeros(|data| - p)
    ensures ZerosFrom(data, p)
  {
    assert forall i :: p <= i < |data| ==> data[i] == data[p..][i - p];
  }

  lemma LoginPayloadOnWire(p: LoginPacket)
    ensures LoginOnWire(p, LoginPayload(p))
  {
    hide Stored, WordsLie, Zeros;
    var data := LoginPayload(p);
    match p {
      case AuthGG(session) =>
        StoredPrefix([0x07], [session]);
        StoredWordsLie([0x07], [session], Zeros(20));
        WordHere(data, 1, [session], 0);
        TailLies(data, 5);
      case ServerList(k1, k2) =>
        StoredPrefix([0x05], [k1, k2]);
        StoredWordsLie([0x05], [k1, k2], []);
        assert data + [] == data;
        WordHere(data, 1, [k1, k2], 0);
        WordHere(data, 1, [k1, k2], 1);
      case ServerLogin(k1, k2, id) =>
        StoredPrefix([0x02], [k1, k2]);
        StoredWordsLie([0x02], [k1, k2], [id]);
        WordHere(data, 1, [k1, k2], 0);
        WordHere(data, 1, [k1, k2], 1);
    }
  }

  // ---- The server's reader ----

  /** The text behind the opcode, up to the first zero unit; only plain bytes are understood. */
  function ReadText(data: seq<byte>): Option<seq<byte>> {
    match FindNul(data, 1)
    case Unterminated => None
    case Terminated(end) =>
      FindNulExact(data, 1, end);
      if IsNarrow(data[1..end]) then Some(LowBytes(data[1..end])) else None
  }

  predicate IsNarrow(s: seq<byte>) {
    forall i: nat :: i < |s| / 2 ==> s[2 * i + 1] == 0
  }

  function Int(data: seq<byte>, p: nat): int32
    requires p + 4 <= |data|
  {
    ToI32(Le32(data, p))
  }

  function Flagged(data: seq<byte>, p: nat): bool
    requires p + 4 <= |data|
  {
    Le32(data, p) != 0
  }

  /** By the opcode, the packets on the way into the world. */
  function ReadLobby(data: seq<byte>): Option<Packet>
    requires data != []
  {
    var n := |data|;
    match data[0]
    case 0x0e => if n == 5 then Some(ProtocolVersion(Int(data, 1))) else None
    case 0x0d => if n == 5 then Some(CharacterDelete(Int(data, 1))) else None
    case 0x7b => if n == 5 then Some(CharacterRestore(Int(data, 1))) else None
    case 0x12 => if n == 19 then Some(CharacterSelect(Int(data, 1))) else None
    case 0x11 => if n == 105 then Some(EnterWorld) else None
    case _ => None
  }

  /** Those that carry a text. */
  function ReadWords(data: seq<byte>): Option<Packet>
    requires data != []
  {
    match ReadText(data)
    case None => None
    case Some(text) =>
      var n, length := 2 * |text| + 3, |data|;
      match data[0]
      case 0x2b =>
        if length != n + 16 then None
        else Some(AuthLogin(text, Le32(data, n + 4), Le32(data, n), Le32(data, n + 8), Le32(data, n + 12)))
      case 0x0c =>
        if length != n + 48 then None
        else Some(CharacterCreate(text, Int(data, n), Flagged(data, n + 4), Int(data, n + 8),
                                  Int(data, n + 36), Int(data, n + 40), Int(data, n + 44)))
      case 0x49 => if length != n + 4 then None else Some(Say2(text, Int(data, n)))
      case _ => None
  }

  /** And those of the game itself. */
  function ReadAct(data: seq<byte>): Option<Packet>
    requires data != []
  {
    var n := |data|;
    match data[0]
    case 0x0f =>
      if n != 29 then None
      else Some(MoveToLocation(Int(data, 1), Int(data, 5), Int(data, 9), Int(data, 13), Int(data, 17), Int(data, 21)))
    case 0x59 =>
      if n != 21 then None else Some(ValidatePosition(Int(data, 1), Int(data, 5), Int(data, 9), Int(data, 13)))
    case 0x56 => if n != 10 then None else Some(ActionUse(Int(data, 1), Flagged(data, 5), data[9] != 0))
    case 0x19 => if n != 9 then None else Some(UseItem(Le32(data, 1), Flagged(data, 5)))
    case 0x1f =>
      if n != 18 then None
      else Some(Packet.Action(Le32(data, 1), Int(data, 5), Int(data, 9), Int(data, 13), data[17]))
    case 0x01 =>
      if n != 18 then None else Some(Attack(Le32(data, 1), Int(data, 5), Int(data, 9), Int(data, 13), data[17]))
    case 0x39 =>
      if n != 13 then None
      else Some(MagicSkillUse(Le32(data, 1), Flagged(data, 5), data[9] != 0, data[10..13]))
    case 0x3a => if n == 1 then Some(Appearing) else None
    case 0x00 => if n == 1 then Some(Logout) else None
    case _ => None
  }

  function Read(data: seq<byte>): Option<Packet> {
    if data == [] then None
    else if data[0] == 0x2b || data[0] == 0x0c || data[0] == 0x49 then ReadWords(data)
    else
      var p := ReadLobby(data);
      if p.Some? then p else ReadAct(data)
  }

  /** And of the login server. */
  function ReadLogin(data: seq<byte>): Option<LoginPacket> {
    if data == [] then None
    else if data[0] == 0x07 && |data| == 25 then Some(AuthGG(Le32(data, 1)))
    else if data[0] == 0x05 && |data| == 9 then Some(ServerList(Le32(data, 1), Le32(data, 5)))
    else if data[0] == 0x02 && |data| == 10 then Some(ServerLogin(Le32(data, 1), Le32(data, 5), data[9]))
    else None
  }

  // ---- Every packet is read back ----

  lemma IntIs(data: seq<byte>, p: nat, i: int32)
    requires Word(data, p, i)
    ensures Int(data, p) == i
  {
    hide Le32;
  }

  lemma WordIs(data: seq<byte>, p: nat, w: u32)
    requires Word(data, p, w)
    ensures Le32(data, p) == w
  {
    hide Le32;
  }

  lemma NoNulIsRead(data: seq<byte>)
    ensures ReadText(data).Some? ==> 0 !in ReadText(data).value
  {
    if ReadText(data).Some? {
      var end := FindNul(data, 1).end;
      FindNulExact(data, 1, end);
      var s := data[1..end];
      forall i: nat | i < |s| / 2 ensures LowBytes(s)[i] != 0 {
        assert NonZeroUnit(s, i);
      }
    }
  }

  lemma TextIs(data: seq<byte>, text: seq<byte>)
    requires TextLies(data, text) && 0 !in text
    ensures ReadText(data) == Some(text)
  {
    var end := 2 * |text| + 1;
    var s := data[1..end];
    forall i | 0 <= i < |s| / 2 ensures NonZeroUnit(s, i) {
      assert s[2 * i] == data[2 * i + 1] == text[i] && text[i] in text;
    }
    FindNulExact(data, 1, end);
    assert LowBytes(s) == text;
  }

  /** The three with a text: read back unless the text holds a NUL, where it would be cut off. */
  lemma WordsRead(p: Packet, data: seq<byte>)
    requires OnWire(p, data) && (p.AuthLogin? || p.CharacterCreate? || p.Say2?)
    ensures ReadWords(data) == Some(p) <==> 0 !in Text(p)
  {
    hide Le32, ToI32, TextLies, Int, Word, ReadText;
    NoNulIsRead(data);
    if 0 !in Text(p) {
      TextIs(data, Text(p));
      var n := 2 * |Text(p)| + 3;
      match p {
        case AuthLogin(_, playKey1, playKey2, loginKey1, loginKey2) =>
          WordIs(data, n, playKey2);
          WordIs(data, n + 4, playKey1);
          WordIs(data, n + 8, loginKey1);
          WordIs(data, n + 12, loginKey2);
        case CharacterCreate(_, race, isFemale, classId, hairStyle, hairColor, face) =>
          IntIs(data, n, race);
          WordIs(data, n + 4, if isFemale then 1 else 0);
          IntIs(data, n + 8, classId);
          IntIs(data, n + 36, hairStyle);
          IntIs(data, n + 40, hairColor);
          IntIs(data, n + 44, face);
        case Say2(_, chatType) =>
          IntIs(data, n, chatType);
      }
    }
  }

  lemma LobbyRead(p: Packet, data: seq<byte>)
    requires OnWire(p, data)
    requires p.ProtocolVersion? || p.CharacterDelete? || p.CharacterRestore? || p.CharacterSelect? || p.EnterWorld?
    ensures ReadLobby(data) == Some(p)
  {
    hide Le32, ToI32, Int, Word, ZerosFrom;
    match p {
      case ProtocolVersion(version) => IntIs(data, 1, version);
      case CharacterDelete(slot) => IntIs(data, 1, slot);
      case CharacterRestore(slot) => IntIs(data, 1, slot);
      case CharacterSelect(slot) => IntIs(data, 1, slot);
      case EnterWorld =>
    }
  }

  lemma ActRead(p: Packet, data: seq<byte>)
    requires OnWire(p, data)
    requires p.MoveToLocation? || p.ValidatePosition? || p.ActionUse? || p.UseItem? || p.Action? || p.Attack?
      || p.MagicSkillUse? || p.Appearing? || p.Logout?
    ensures ReadLobby(data) == None && ReadAct(data) == Some(p)
  {
    hide Le32, ToI32, Int, Word;
    match p {
      case MoveToLocation(tx, ty, tz, ox, oy, oz) =>
        IntIs(data, 1, tx);
        IntIs(data, 5, ty);
        IntIs(data, 9, tz);
        IntIs(data, 13, ox);
        IntIs(data, 17, oy);
        IntIs(data, 21, oz);
      case ValidatePosition(x, y, z, heading) =>
        IntIs(data, 1, x);
        IntIs(data, 5, y);
        IntIs(data, 9, z);
        IntIs(data, 13, heading);
      case ActionUse(actionId, ctrl, _) =>
        IntIs(data, 1, actionId);
        WordIs(data, 5, if ctrl then 1 else 0);
      case UseItem(objectId, ctrl) =>
        WordIs(data, 1, objectId);
        WordIs(data, 5, if ctrl then 1 else 0);
      case Action(objectId, x, y, z, _) =>
        WordIs(data, 1, objectId);
        IntIs(data, 5, x);
        IntIs(data, 9, y);
        IntIs(data, 13, z);
      case Attack(objectId, x, y, z, _) =>
        WordIs(data, 1, objectId);
        IntIs(data, 5, x);
        IntIs(data, 9, y);
        IntIs(data, 13, z);
      case MagicSkillUse(magicId, ctrl, _, _) =>
        WordIs(data, 1, magicId);
        WordIs(data, 5, if ctrl then 1 else 0);
      case _ =>
    }
  }

  /** From the bytes of a packet the server gets that packet, exactly if it carries no text with a NUL in it. */
  lemma ServerReadsPacket(p: Packet)
    ensures Read(Payload(p)) == Some(p) <==> 0 !in Text(p)
  {
    hide Payload, Word, TextLies, ZerosFrom, ReadWords, ReadLobby, ReadAct;
    PayloadOnWire(p);
    if p.AuthLogin? || p.CharacterCreate? || p.Say2? {
      WordsRead(p, Payload(p));
    } else if p.ProtocolVersion? || p.CharacterDelete? || p.CharacterRestore? || p.CharacterSelect? || p.EnterWorld? {
      LobbyRead(p, Payload(p));
    } else {
      ActRead(p, Payload(p));
    }
  }

  lemma ServerReadsRequest(p: LoginPacket)
    ensures ReadLogin(LoginPayload(p)) == Some(p)
  {
    hide LoginPayload, Word, Le32, ZerosFrom;
    LoginPayloadOnWire(p);
    match p {
      case AuthGG(session) => WordIs(LoginPayload(p), 1, session);
      case ServerList(k1, k2) => WordIs(LoginPayload(p), 1, k1); WordIs(LoginPayload(p), 5, k2);
      case ServerLogin(k1, k2, _) => WordIs(LoginPayload(p), 1, k1); WordIs(LoginPayload(p), 5, k2);
    }
  }
}
