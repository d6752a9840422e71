/**
 * internal/net/protocol.go, the Encode functions: each writes into the caller's slice at an advancing
 * position. What it leaves there depends on its arguments alone, not on what the buffer held before.
 */
module Encoders {
  import opened Bytes
  import opened Slices
  import opened Packets
  import S = ServerReader
  import opened Sequences
  import opened WideStrings
  import opened WordRuns

  /** The first p bytes of a slice. */
  ghost function Written(data: Slice, p: nat): seq<byte>
    requires data.Valid() && p <= data.len
    reads data.arr
  {
    data.View()[..p]
  }

  /** The bytes from position p on. */
  ghost function Rest(data: Slice, p: nat): seq<byte>
    requires data.Valid() && p <= data.len
    reads data.arr
  {
    data.View()[p..]
  }

  /** data[p] = b */
  method PutByte(data: Slice, p: nat, b: byte)
    requires data.Valid() && p < data.len
    modifies data.arr
    ensures Written(data, p + 1) == old(Written(data, p)) + [b]
    ensures Rest(data, p + 1) == old(Rest(data, p + 1))
  {
    data.arr[data.off + p] := b;
  }

  /** Every packet starts with its opcode. */
  method PutOpcode(data: Slice, opcode: byte) returns (next: nat)
    requires data.Valid() && 1 <= data.len
    modifies data.arr
    ensures next == 1 && Written(data, 1) == [opcode] && Stored([opcode], []) == [opcode]
    ensures Rest(data, 1) == old(Rest(data, 1))
  {
    assert Written(data, 0) == [];
    PutByte(data, 0, opcode);
    next := 1;
  }

  /** binary.LittleEndian.PutUint32(data[p:], w), then pos += 4: one more word stored behind head. */
  method PutUint32(data: Slice, p: nat, w: u32, ghost head: seq<byte>, ghost words: seq<u32>)
    returns (next: nat, ghost stored: seq<u32>)
    requires data.Valid() && p + 4 <= data.len && Written(data, p) == Stored(head, words)
    modifies data.arr
    ensures next == p + 4 && stored == words + [w] && Written(data, next) == Stored(head, stored)
    ensures Rest(data, next) == old(Rest(data, next))
  {
    hide Put32, Stored;
    next, stored := p + 4, words + [w];
    ghost var before := data.arr[..];
    StoreUint32(data.arr, data.off + p, w);
    WordInWindow(before, data.arr[..], data.off, data.len, p, 4);
    assert data.View()[..next] == data.View()[..p] + data.View()[p..next];
    StoredMore(head, words, w);
  }

  /** A store inside a window, seen through the window. */
  lemma WordInWindow(before: seq<byte>, after: seq<byte>, off: nat, len: nat, p: nat, n: nat)
    requires off + len <= |before| && p + n <= len && SameOutside(before, after, off + p, n)
    ensures var was, now := before[off..off + len], after[off..off + len];
      && now[..p] == was[..p] && now[p..p + n] == after[off + p..off + p + n] && now[p + n..] == was[p + n..]
  {
    SliceOfSlice(after, off, off + len, p, p + n);
    SliceOfSlice(after, off, off + len, 0, p);
    SliceOfSlice(before, off, off + len, 0, p);
    SliceOfSlice(after, off, off + len, p + n, len);
    SliceOfSlice(before, off, off + len, p + n, len);
    assert after[off..off + p] == before[off..off + p];
    assert after[off + p + n..off + len] == before[off + p + n..off + len];
  }

  /** n zero bytes from position p on. */
  method PutZeros(data: Slice, p: nat, n: nat)
    requires data.Valid() && p + n <= data.len
    modifies data.arr
    ensures Written(data, p + n) == old(Written(data, p)) + Zeros(n)
  {
    ghost var before := Written(data, p);
    hide Written;
    for i := 0 to n
      invariant Written(data, p + i) == before + Zeros(i)
    {
      PutByte(data, p + i, 0);
      assert Zeros(i) + [0] == Zeros(i + 1);
    }
  }

  /** One UTF-16LE unit. */
  method PutUnit(data: Slice, p: nat, b: byte)
    requires data.Valid() && p + 2 <= data.len
    modifies data.arr
    ensures Written(data, p + 2) == old(Written(data, p)) + [b, 0]
  {
    PutByte(data, p, b);
    PutByte(data, p + 1, 0);
  }

  /** The string loops: UTF-16LE with a terminator. */
  method PutText(data: Slice, p: nat, text: seq<byte>) returns (next: nat)
    requires data.Valid() && p + 2 * |text| + 2 <= data.len
    modifies data.arr
    ensures next == p + 2 * |text| + 2
    ensures var s := old(Written(data, p)) + Widen(text) + [0, 0]; Written(data, next) == s == Stored(s, [])
  {
    hide Written, Rest, Widen, Stored;
    next := p;
    ghost var before := Written(data, p);
    TextNothing(before, text);
    for i := 0 to |text|
      invariant next == p + 2 * i
      invariant Written(data, next) == before + Widen(text[..i])
    {
      PutUnit(data, next, text[i]);
      next := next + 2;
      TextMore(before, text, i);
    }
    assert text[..|text|] == text;
    PutUnit(data, next, 0);
    next := next + 2;
    StoredNothing(Written(data, next));
  }

  lemma TextNothing(before: seq<byte>, text: seq<byte>)
    ensures before + Widen(text[..0]) == before
  {
  }

  lemma TextMore(before: seq<byte>, text: seq<byte>, i: nat)
    requires i < |text|
    ensures before + Widen(text[..i]) + [text[i], 0] == before + Widen(text[..i + 1])
  {
    WidenMore(text, i);
    hide Widen;
    ConcatAssociates(before, Widen(text[..i]), [text[i], 0]);
  }

  lemma StoredNothing(head: seq<byte>)
    ensures Stored(head, []) == head
  {
  }

  method EncodeProtocolVersionTo(version: int32, data: Slice)
    requires data.Valid() && data.len >= 5
    modifies data.arr
    ensures Written(data, 5) == Payload(ProtocolVersion(version))
    ensures S.OnWire(ProtocolVersion(version), Written(data, 5))
  {
    hide Written, Rest, Stored, Widen, Zeros, S.OnWire;
    var pos := PutOpcode(data, 0x0e);
    ghost var head := [0x0e];
    ghost var words: seq<u32> := [];
    pos, words := PutUint32(data, pos, ToU32(version), head, words);
    assert words == Words(ProtocolVersion(version));
    S.PayloadOnWire(ProtocolVersion(version));
  }

  method EncodeAuthLoginTo(account: seq<byte>, playKey1: u32, playKey2: u32, loginKey1: u32, loginKey2: u32,
                           data: Slice) returns (pos: nat)
    requires data.Valid() && data.len >= 3 + 2 * |account| + 16
    modifies data.arr
    ensures pos == 3 + 2 * |account| + 16
    ensures Written(data, pos) == Payload(AuthLogin(account, playKey1, playKey2, loginKey1, loginKey2))
    ensures S.OnWire(AuthLogin(account, playKey1, playKey2, loginKey1, loginKey2), Written(data, pos))
  {
    hide Written, Rest, Stored, Widen, Zeros, S.OnWire;
    pos := PutOpcode(data, 0x2b);
    pos := PutText(data, pos, account);
    ghost var head := Head(0x2b, true, account);
    ghost var words: seq<u32> := [];
    pos, words := PutUint32(data, pos, playKey2, head, words);
    pos, words := PutUint32(data, pos, playKey1, head, words);
    pos, words := PutUint32(data, pos, loginKey1, head, words);
    pos, words := PutUint32(data, pos, loginKey2, head, words);
    assert words == Words(AuthLogin(account, playKey1, playKey2, loginKey1, loginKey2));
    S.PayloadOnWire(AuthLogin(account, playKey1, playKey2, loginKey1, loginKey2));
  }

  method EncodeGSCharacterDeleteTo(slot: int32, data: Slice) returns (pos: nat)
    requires data.Valid() && data.len >= 5
    modifies data.arr
    ensures pos == 5 && Written(data, pos) == Payload(CharacterDelete(slot))
    ensures S.OnWire(CharacterDelete(slot), Written(data, pos))
  {
    hide Written, Rest, Stored, Widen, Zeros, S.OnWire;
    pos := PutOpcode(data, 0x0d);
    ghost var head := [0x0d];
    ghost var words: seq<u32> := [];
    pos, words := PutUint32(data, pos, ToU32(slot), head, words);
    assert words == Words(CharacterDelete(slot));
    S.PayloadOnWire(CharacterDelete(slot));
  }

  method EncodeGSCharacterRestoreTo(slot: int32, data: Slice) returns (pos: nat)
    requires data.Valid() && data.len >= 5
    modifies data.arr
    ensures pos == 5 && Written(data, pos) == Payload(CharacterRestore(slot))
    ensures S.OnWire(CharacterRestore(slot), Written(data, pos))
  {
    hide Written, Rest, Stored, Widen, Zeros, S.OnWire;
    pos := PutOpcode(data, 0x7b);
    ghost var head := [0x7b];
    ghost var words: seq<u32> := [];
    pos, words := PutUint32(data, pos, ToU32(slot), head, words);
    assert words == Words(CharacterRestore(slot));
    S.PayloadOnWire(CharacterRestore(slot));
  }

  method EncodeGSCharacterCreateTo(name: seq<byte>, race: int32, isFemale: bool, classId: int32,
                                   hairStyle: int32, hairColor: int32, face: int32, data: Slice) returns (pos: nat)
    requires data.Valid() && data.len >= 51 + 2 * |name|
    modifies data.arr
    ensures pos == 51 + 2 * |name|
    ensures Written(data, pos) == Payload(CharacterCreate(name, race, isFemale, classId, hairStyle, hairColor, face))
    ensures S.OnWire(CharacterCreate(name, race, isFemale, classId, hairStyle, hairColor, face), Written(data, pos))
  {
    hide Written, Rest, Stored, Widen, Zeros, S.OnWire;
    pos := PutOpcode(data, 0x0c);
    pos := PutText(data, pos, name);
    ghost var head := Head(0x0c, true, name);
    ghost var words: seq<u32> := [];
    pos, words := PutUint32(data, pos, ToU32(race), head, words);
    pos, words := PutUint32(data, pos, if isFemale then 1 else 0, head, words);
    pos, words := PutUint32(data, pos, ToU32(classId), head, words);
    for i := 0 to 6
      invariant pos == 3 + 2 * |name| + 12 + 4 * i
      invariant words == [ToU32(race), Flag(isFemale), ToU32(classId)] + seq(i, _ => 40)
      invariant Written(data, pos) == Stored(head, words)
    {
      pos, words := PutUint32(data, pos, 40, head, words);
    }
    pos, words := PutUint32(data, pos, ToU32(hairStyle), head, words);
    pos, words := PutUint32(data, pos, ToU32(hairColor), head, words);
    pos, words := PutUint32(data, pos, ToU32(face), head, words);
    assert words == Words(CharacterCreate(name, race, isFemale, classId, hairStyle, hairColor, face));
    S.PayloadOnWire(CharacterCreate(name, race, isFemale, classId, hairStyle, hairColor, face));
  }

  method EncodeGSCharacterSelectTo(slot: int32, data: Slice) returns (pos: nat)
    requires data.Valid() && data.len >= 19
    modifies data.arr
    ensures pos == 19 && Written(data, pos) == Payload(CharacterSelect(slot))
    ensures S.OnWire(CharacterSelect(slot), Written(data, pos))
  {
    hide Written, Rest, Stored, Widen, Zeros, S.OnWire;
    pos := PutOpcode(data, 0x12);
    ghost var head := [0x12];
    ghost var words: seq<u32> := [];
    pos, words := PutUint32(data, pos, ToU32(slot), head, words);
    assert words == Words(CharacterSelect(slot));
    PutZeros(data, pos, 14);
    pos := pos + 14;
    S.PayloadOnWire(CharacterSelect(slot));
  }

  method EncodeGSMoveToLocationTo(targetX: int32, targetY: int32, targetZ: int32,
                                  originX: int32, originY: int32, originZ: int32, data: Slice) returns (pos: nat)
    requires data.Valid() && data.len >= 29
    modifies data.arr
    ensures pos == 29
    ensures Written(data, pos) == Payload(MoveToLocation(targetX, targetY, targetZ, originX, originY, originZ))
    ensures S.OnWire(MoveToLocation(targetX, targetY, targetZ, originX, originY, originZ), Written(data, pos))
  {
    hide Written, Rest, Stored, Widen, Zeros, S.OnWire;
    pos := PutOpcode(data, 0x0f);
    ghost var head := [0x0f];
    ghost var words: seq<u32> := [];
    pos, words := PutUint32(data, pos, ToU32(targetX), head, words);
    pos, words := PutUint32(data, pos, ToU32(targetY), head, words);
    pos, words := PutUint32(data, pos, ToU32(targetZ), head, words);
    pos, words := PutUint32(data, pos, ToU32(originX), head, words);
    pos, words := PutUint32(data, pos, ToU32(originY), head, words);
    pos, words := PutUint32(data, pos, ToU32(originZ), head, words);
    pos, words := PutUint32(data, pos, 1, head, words);
    assert words == Words(MoveToLocation(targetX, targetY, targetZ, originX, originY, originZ));
    S.PayloadOnWire(MoveToLocation(targetX, targetY, targetZ, originX, originY, originZ));
  }

  method EncodeGSValidatePositionTo(x: int32, y: int32, z: int32, heading: int32, data: Slice) returns (pos: nat)
    requires data.Valid() && data.len >= 21
    modifies data.arr
    ensures pos == 21 && Written(data, pos) == Payload(ValidatePosition(x, y, z, heading))
    ensures S.OnWire(ValidatePosition(x, y, z, heading), Written(data, pos))
  {
    hide Written, Rest, Stored, Widen, Zeros, S.OnWire;
    pos := PutOpcode(data, 0x59);
    ghost var head := [0x59];
    ghost var words: seq<u32> := [];
    pos, words := PutUint32(data, pos, ToU32(x), head, words);
    pos, words := PutUint32(data, pos, ToU32(y), head, words);
    pos, words := PutUint32(data, pos, ToU32(z), head, words);
    pos, words := PutUint32(data, pos, ToU32(heading), head, words);
    pos, words := PutUint32(data, pos, 0, head, words);
    assert words == Words(ValidatePosition(x, y, z, heading));
    S.PayloadOnWire(ValidatePosition(x, y, z, heading));
  }

  method EncodeGSRequestActionUseTo(actionId: int32, ctrl: bool, shift: bool, data: Slice) returns (pos: nat)
    requires data.Valid() && data.len >= 10
    modifies data.arr
    ensures pos == 10 && Written(data, pos) == Payload(ActionUse(actionId, ctrl, shift))
    ensures S.OnWire(ActionUse(actionId, ctrl, shift), Written(data, pos))
  {
    hide Written, Rest, Stored, Widen, Zeros, S.OnWire;
    pos := PutOpcode(data, 0x56);
    ghost var head := [0x56];
    ghost var words: seq<u32> := [];
    pos, words := PutUint32(data, pos, ToU32(actionId), head, words);
    pos, words := PutUint32(data, pos, if ctrl then 1 else 0, head, words);
    assert words == Words(ActionUse(actionId, ctrl, shift));
    PutByte(data, pos, if shift then 1 else 0);
    pos := pos + 1;
    S.PayloadOnWire(ActionUse(actionId, ctrl, shift));
  }

  method EncodeGSUseItemTo(objectId: u32, ctrl: bool, data: Slice) returns (pos: nat)
    requires data.Valid() && data.len >= 9
    modifies data.arr
    ensures pos == 9 && Written(data, pos) == Payload(UseItem(objectId, ctrl))
    ensures S.OnWire(UseItem(objectId, ctrl), Written(data, pos))
  {
    hide Written, Rest, Stored, Widen, Zeros, S.OnWire;
    pos := PutOpcode(data, 0x19);
    ghost var head := [0x19];
    ghost var words: seq<u32> := [];
    pos, words := PutUint32(data, pos, objectId, head, words);
    pos, words := PutUint32(data, pos, if ctrl then 1 else 0, head, words);
    assert words == Words(UseItem(objectId, ctrl));
    S.PayloadOnWire(UseItem(objectId, ctrl));
  }

  method EncodeGSActionTo(objectId: u32, x: int32, y: int32, z: int32, actionId: byte, data: Slice) returns (pos: nat)
    requires data.Valid() && data.len >= 18
    modifies data.arr
    ensures pos == 18 && Written(data, pos) == Payload(Action(objectId, x, y, z, actionId))
    ensures S.OnWire(Action(objectId, x, y, z, actionId), Written(data, pos))
  {
    hide Written, Rest, Stored, Widen, Zeros, S.OnWire;
    pos := PutOpcode(data, 0x1f);
    ghost var head := [0x1f];
    ghost var words: seq<u32> := [];
    pos, words := PutUint32(data, pos, objectId, head, words);
    pos, words := PutUint32(data, pos, ToU32(x), head, words);
    pos, words := PutUint32(data, pos, ToU32(y), head, words);
    pos, words := PutUint32(data, pos, ToU32(z), head, words);
    assert words == Words(Action(objectId, x, y, z, actionId));
    PutByte(data, pos, actionId);
    pos := pos + 1;
    S.PayloadOnWire(Action(objectId, x, y, z, actionId));
  }

  method EncodeGSAttackRequestTo(objectId: u32, x: int32, y: int32, z: int32, attackId: byte, data: Slice)
    returns (pos: nat)
    requires data.Valid() && data.len >= 18
    modifies data.arr
    ensures pos == 18 && Written(data, pos) == Payload(Attack(objectId, x, y, z, attackId))
    ensures S.OnWire(Attack(objectId, x, y, z, attackId), Written(data, pos))
  {
    hide Written, Rest, Stored, Widen, Zeros, S.OnWire;
    pos := PutOpcode(data, 0x01);
    ghost var head := [0x01];
    ghost var words: seq<u32> := [];
    pos, words := PutUint32(data, pos, objectId, head, words);
    pos, words := PutUint32(data, pos, ToU32(x), head, words);
    pos, words := PutUint32(data, pos, ToU32(y), head, words);
    pos, words := PutUint32(data, pos, ToU32(z), head, words);
    assert words == Words(Attack(objectId, x, y, z, attackId));
    PutByte(data, pos, attackId);
    pos := pos + 1;
    S.PayloadOnWire(Attack(objectId, x, y, z, attackId));
  }

  lemma RestStart(data: Slice)
    requires data.Valid() && data.len >= 1
    ensures Rest(data, 1) == data.View()[1..]
  {
  }

  lemma RestLater(data: Slice, p: nat, q: nat, before: seq<byte>)
    requires data.Valid() && p <= q <= data.len == |before| && Rest(data, p) == before[p..]
    ensures Rest(data, q) == before[q..]
  {
    assert Rest(data, q) == Rest(data, p)[q - p..];
  }

  lemma WrittenRest(data: Slice, p: nat, q: nat, before: seq<byte>)
    requires data.Valid() && p <= q <= data.len == |before| && Rest(data, p) == before[p..]
    ensures Written(data, q) == Written(data, p) + before[p..q]
  {
    assert data.View()[p..q] == Rest(data, p)[..q - p];
  }

  /** Writes one byte for the shift flag but steps over four: bytes 10 to 12 are what the buffer held. */
  method EncodeGSRequestMagicSkillUseTo(magicId: u32, ctrl: bool, shift: bool, data: Slice) returns (pos: nat)
    requires data.Valid() && data.len >= 13
    modifies data.arr
    ensures pos == 13 && Written(data, pos) == Payload(MagicSkillUse(magicId, ctrl, shift, old(data.View()[10..13])))
    ensures S.OnWire(MagicSkillUse(magicId, ctrl, shift, old(data.View()[10..13])), Written(data, pos))
  {
    hide Written, Rest, Stored, Widen, Zeros, S.OnWire;
    ghost var before := data.View();
    ghost var left: Leftover := before[10..13];
    RestStart(data);
    pos := PutOpcode(data, 0x39);
    ghost var head, words: seq<u32> := [0x39], [];
    RestLater(data, 1, 5, before);
    pos, words := PutUint32(data, pos, magicId, head, words);
    RestLater(data, 5, 9, before);
    pos, words := PutUint32(data, pos, if ctrl then 1 else 0, head, words);
    RestLater(data, 9, 10, before);
    assert words == Words(MagicSkillUse(magicId, ctrl, shift, left));
    PutByte(data, pos, if shift then 1 else 0);
    WrittenRest(data, 10, 13, before);
    pos := pos + 4;
    ConcatAssociates(Stored(head, words), [Flag(shift)], left);
    S.PayloadOnWire(MagicSkillUse(magicId, ctrl, shift, left));
  }

  method EncodeGSEnterWorldTo(data: Slice) returns (pos: nat)
    requires data.Valid() && data.len >= 105
    modifies data.arr
    ensures pos == 105 && Written(data, pos) == Payload(EnterWorld)
    ensures S.OnWire(EnterWorld, Written(data, pos))
  {
    hide Written, Rest, Stored, Widen, Zeros, S.OnWire;
    pos := PutOpcode(data, 0x11);
    ghost var head := [0x11];
    PutZeros(data, 1, 104);
    pos := 105;
    S.PayloadOnWire(EnterWorld);
  }

  method EncodeGSSay2To(text: seq<byte>, chatType: int32, data: Slice) returns (pos: nat)
    requires data.Valid() && data.len >= 7 + 2 * |text|
    modifies data.arr
    ensures pos == 7 + 2 * |text| && Written(data, pos) == Payload(Say2(text, chatType))
    ensures S.OnWire(Say2(text, chatType), Written(data, pos))
  {
    hide Written, Rest, Stored, Widen, Zeros, S.OnWire;
    pos := PutOpcode(data, 0x49);
    pos := PutText(data, pos, text);
    ghost var head := Head(0x49, true, text);
    ghost var words: seq<u32> := [];
    pos, words := PutUint32(data, pos, ToU32(chatType), head, words);
    assert words == Words(Say2(text, chatType));
    S.PayloadOnWire(Say2(text, chatType));
  }

  method EncodeGSAppearingTo(data: Slice) returns (pos: nat)
    requires data.Valid() && data.len >= 1
    modifies data.arr
    ensures pos == 1 && Written(data, pos) == Payload(Appearing)
    ensures S.OnWire(Appearing, Written(data, pos))
  {
    hide Written, Rest, Stored, Widen, Zeros, S.OnWire;
    pos := PutOpcode(data, 0x3a);
    ghost var head := [0x3a];
    S.PayloadOnWire(Appearing);
  }

  // The login server's requests.

  method EncodeAuthGGRequestTo(sessionId: u32, data: Slice)
    requires data.Valid() && data.len >= 25
    modifies data.arr
    ensures Written(data, 25) == LoginPayload(AuthGG(sessionId))
    ensures S.LoginOnWire(AuthGG(sessionId), Written(data, 25))
  {
    hide Written, Rest, Stored, Widen, Zeros, S.LoginOnWire;
    var pos := PutOpcode(data, OP_AUTH_GG_REQUEST);
    ghost var head := [OP_AUTH_GG_REQUEST];
    ghost var words: seq<u32> := [];
    pos, words := PutUint32(data, pos, sessionId, head, words);
    assert words == [sessionId];
    PutZeros(data, 5, 20);
    S.LoginPayloadOnWire(AuthGG(sessionId));
  }

  method EncodeRequestServerListTo(loginKey1: u32, loginKey2: u32, data: Slice)
    requires data.Valid() && data.len >= 9
    modifies data.arr
    ensures Written(data, 9) == LoginPayload(ServerList(loginKey1, loginKey2))
    ensures S.LoginOnWire(ServerList(loginKey1, loginKey2), Written(data, 9))
  {
    hide Written, Rest, Stored, Widen, Zeros, S.LoginOnWire;
    var pos := PutOpcode(data, OP_REQUEST_SERVER_LIST);
    ghost var head := [OP_REQUEST_SERVER_LIST];
    ghost var words: seq<u32> := [];
    pos, words := PutUint32(data, pos, loginKey1, head, words);
    pos, words := PutUint32(data, pos, loginKey2, head, words);
    assert words == [loginKey1, loginKey2];
    S.LoginPayloadOnWire(ServerList(loginKey1, loginKey2));
  }

  method EncodeRequestServerLoginTo(loginKey1: u32, loginKey2: u32, serverId: byte, data: Slice)
    requires data.Valid() && data.len >= 10
    modifies data.arr
    ensures Written(data, 10) == LoginPayload(ServerLogin(loginKey1, loginKey2, serverId))
    ensures S.LoginOnWire(ServerLogin(loginKey1, loginKey2, serverId), Written(data, 10))
  {
    hide Written, Rest, Stored, Widen, Zeros, S.LoginOnWire;
    var pos := PutOpcode(data, OP_REQUEST_SERVER_LOGIN);
    ghost var head := [OP_REQUEST_SERVER_LOGIN];
    ghost var words: seq<u32> := [];
    pos, words := PutUint32(data, pos, loginKey1, head, words);
    pos, words := PutUint32(data, pos, loginKey2, head, words);
    assert words == [loginKey1, loginKey2];
    PutByte(data, pos, serverId);
    S.LoginPayloadOnWire(ServerLogin(loginKey1, loginKey2, serverId));
  }
}
