/** The client's packets and the bytes each one is on the wire (internal/net/protocol.go, the Encode functions). */
module Packets {
  import opened Bytes
  import opened WideStrings
  import opened WordRuns

  // Requests to the login server.
  const OP_AUTH_GG_REQUEST: byte := 0x07
  const OP_REQUEST_SERVER_LIST: byte := 0x05
  const OP_REQUEST_SERVER_LOGIN: byte := 0x02

  datatype LoginPacket =
    | AuthGG(sessionId: u32)
    | ServerList(loginKey1: u32, loginKey2: u32)
    | ServerLogin(loginKey1: u32, loginKey2: u32, serverId: byte)

  // Requests to the game server.
  datatype Packet =
    | ProtocolVersion(version: int32)
    | AuthLogin(account: seq<byte>, playKey1: u32, playKey2: u32, loginKey1: u32, loginKey2: u32)
    | CharacterDelete(slot: int32)
    | CharacterRestore(slot: int32)
    | CharacterCreate(name: seq<byte>, race: int32, isFemale: bool, classId: int32,
                      hairStyle: int32, hairColor: int32, face: int32)
    | CharacterSelect(slot: int32)
    | MoveToLocation(tx: int32, ty: int32, tz: int32, ox: int32, oy: int32, oz: int32)
    | ValidatePosition(x: int32, y: int32, z: int32, heading: int32)
    | ActionUse(actionId: int32, ctrl: bool, shift: bool)
    | UseItem(objectId: u32, ctrl: bool)
    | Action(objectId: u32, x: int32, y: int32, z: int32, actionByte: byte)
    | Attack(objectId: u32, x: int32, y: int32, z: int32, attackByte: byte)
    | MagicSkillUse(magicId: u32, ctrl: bool, shift: bool, left: Leftover)
    | EnterWorld
    | Say2(text: seq<byte>, chatType: int32)
    | Appearing
    | Logout

  const OP_LOGOUT: byte := 0x00

  /** Three bytes the MagicSkillUse encoder steps over without writing. */
  type Leftover = s: seq<byte> | |s| == 3 witness [0, 0, 0]

  function Flag(b: bool): byte {
    if b then 1 else 0
  }

  function Opcode(p: Packet): byte {
    match p
    case ProtocolVersion(_) => 0x0e
    case AuthLogin(_, _, _, _, _) => 0x2b
    case CharacterDelete(_) => 0x0d
    case CharacterRestore(_) => 0x7b
    case CharacterCreate(_, _, _, _, _, _, _) => 0x0c
    case CharacterSelect(_) => 0x12
    case MoveToLocation(_, _, _, _, _, _) => 0x0f
    case ValidatePosition(_, _, _, _) => 0x59
    case ActionUse(_, _, _) => 0x56
    case UseItem(_, _) => 0x19
    case Action(_, _, _, _, _) => 0x1f
    case Attack(_, _, _, _, _) => 0x01
    case MagicSkillUse(_, _, _, _) => 0x39
    case EnterWorld => 0x11
    case Say2(_, _) => 0x49
    case Appearing => 0x3a
    case Logout => OP_LOGOUT
  }

  /** The string a packet carries, when it carries one. */
  function Text(p: Packet): seq<byte> {
    match p
    case AuthLogin(account, _, _, _, _) => account
    case CharacterCreate(name, _, _, _, _, _, _) => name
    case Say2(text, _) => text
    case _ => []
  }

  predicate HasText(p: Packet) {
    p.AuthLogin? || p.CharacterCreate? || p.Say2?
  }

  function Words(p: Packet): seq<u32> {
    match p
    case ProtocolVersion(v) => [ToU32(v)]
    case AuthLogin(_, play1, play2, login1, login2) => [play2, play1, login1, login2]
    case CharacterDelete(slot) => [ToU32(slot)]
    case CharacterRestore(slot) => [ToU32(slot)]
    case CharacterCreate(_, race, female, class_, style, color, face) =>
      [ToU32(race), Flag(female), ToU32(class_), 40, 40, 40, 40, 40, 40, ToU32(style), ToU32(color), ToU32(face)]
    case CharacterSelect(slot) => [ToU32(slot)]
    case MoveToLocation(tx, ty, tz, ox, oy, oz) =>
      [ToU32(tx), ToU32(ty), ToU32(tz), ToU32(ox), ToU32(oy), ToU32(oz), 1]
    case ValidatePosition(x, y, z, heading) => [ToU32(x), ToU32(y), ToU32(z), ToU32(heading), 0]
    case ActionUse(id, ctrl, _) => [ToU32(id), Flag(ctrl)]
    case UseItem(id, ctrl) => [id, Flag(ctrl)]
    case Action(id, x, y, z, _) => [id, ToU32(x), ToU32(y), ToU32(z)]
    case Attack(id, x, y, z, _) => [id, ToU32(x), ToU32(y), ToU32(z)]
    case MagicSkillUse(id, ctrl, _, _) => [id, Flag(ctrl)]
    case Say2(_, chatType) => [ToU32(chatType)]
    case _ => []
  }

  function Tail(p: Packet): seq<byte> {
    match p
    case CharacterSelect(_) => Zeros(14)
    case ActionUse(_, _, shift) => [Flag(shift)]
    case Action(_, _, _, _, b) => [b]
    case Attack(_, _, _, _, b) => [b]
    case MagicSkillUse(_, _, shift, left) => [Flag(shift)] + left
    case EnterWorld => Zeros(104)
    case _ => []
  }

  function Head(opcode: byte, hasText: bool, text: seq<byte>): seq<byte> {
    if hasText then [opcode] + Widen(text) + [0, 0] else [opcode]
  }

  function Payload(p: Packet): seq<byte> {
    Stored(Head(Opcode(p), HasText(p), Text(p)), Words(p)) + Tail(p)
  }

  function LoginPayload(p: LoginPacket): seq<byte> {
    match p
    case AuthGG(session) => Stored([OP_AUTH_GG_REQUEST], [session]) + Zeros(20)
    case ServerList(k1, k2) => Stored([OP_REQUEST_SERVER_LIST], [k1, k2])
    case ServerLogin(k1, k2, id) => Stored([OP_REQUEST_SERVER_LOGIN], [k1, k2]) + [id]
  }

  // ---- No two packets share their bytes ----

  lemma HeadInjective(op: byte, hasText: bool, t1: seq<byte>, t2: seq<byte>)
    requires Head(op, hasText, t1) == Head(op, hasText, t2) && (!hasText ==> t1 == t2)
    ensures t1 == t2
  {
    if hasText {
      var h := Head(op, hasText, t1);
      forall i | 0 <= i < |t1| ensures t1[i] == t2[i] {
        assert Widen(t1)[2 * i] == h[1 + 2 * i] == Widen(t2)[2 * i];
      }
    }
  }

  /** The bytes before the words: their lengths agree when the packets do. */
  lemma PayloadParts(p: Packet, q: Packet)
    requires Payload(p) == Payload(q)
    ensures Opcode(p) == Opcode(q)
    ensures Text(p) == Text(q) && Words(p) == Words(q) && Tail(p) == Tail(q)
  {
    FirstByte(p);
    FirstByte(q);
    SameKind(p, q);
    var hp, hq := Head(Opcode(p), HasText(p), Text(p)), Head(Opcode(q), HasText(q), Text(q));
    var n := |Payload(p)| - |Tail(p)|;
    assert Stored(hp, Words(p)) == Payload(p)[..n] && Stored(hq, Words(q)) == Payload(q)[..n];
    assert Tail(p) == Payload(p)[n..] == Tail(q);
    StoredInjective(hp, Words(p), hq, Words(q));
    HeadInjective(Opcode(p), HasText(p), Text(p), Text(q));
  }

  lemma FirstByte(p: Packet)
    ensures Payload(p) != [] && Payload(p)[0] == Opcode(p)
  {
    var h := Head(Opcode(p), HasText(p), Text(p));
    StoredPrefix(h, Words(p));
    assert Payload(p)[0] == h[0];
  }

  lemma SameKind(p: Packet, q: Packet)
    requires Opcode(p) == Opcode(q)
    ensures HasText(p) == HasText(q) && |Words(p)| == |Words(q)| && |Tail(p)| == |Tail(q)|
    ensures !HasText(p) ==> Text(p) == Text(q)
  {
  }

  /** The peer can tell every packet from every other by its bytes alone. */
  lemma PayloadInjective(p: Packet, q: Packet)
    requires Payload(p) == Payload(q)
    ensures p == q
  {
    PayloadParts(p, q);
    SameConstructor(p, q);
    hide Payload, Stored, Put32, Widen, Opcode, Words, Text, Tail;
    match p {
      case AuthLogin(_, _, _, _, _) => TextsAgree(p, q);
      case CharacterCreate(_, _, _, _, _, _, _) => TextsAgree(p, q);
      case Say2(_, _) => TextsAgree(p, q);
      case ActionUse(_, _, _) => TailsAgree(p, q);
      case UseItem(_, _) => TailsAgree(p, q);
      case Action(_, _, _, _, _) => TailsAgree(p, q);
      case Attack(_, _, _, _, _) => TailsAgree(p, q);
      case MagicSkillUse(_, _, _, _) => TailsAgree(p, q);
      case _ => NumbersAgree(p, q);
    }
  }

  /** Equal opcodes mean equal constructors. */
  lemma SameConstructor(p: Packet, q: Packet)
    requires Opcode(p) == Opcode(q)
    ensures p.ProtocolVersion? == q.ProtocolVersion? && p.AuthLogin? == q.AuthLogin?
    ensures p.CharacterDelete? == q.CharacterDelete? && p.CharacterRestore? == q.CharacterRestore?
    ensures p.CharacterCreate? == q.CharacterCreate? && p.CharacterSelect? == q.CharacterSelect?
    ensures p.MoveToLocation? == q.MoveToLocation? && p.ValidatePosition? == q.ValidatePosition?
    ensures p.ActionUse? == q.ActionUse? && p.UseItem? == q.UseItem?
    ensures p.Action? == q.Action? && p.Attack? == q.Attack? && p.MagicSkillUse? == q.MagicSkillUse?
    ensures p.EnterWorld? == q.EnterWorld? && p.Say2? == q.Say2?
    ensures p.Appearing? == q.Appearing? && p.Logout? == q.Logout?
  {
  }

  /** The packets of numbers alone. */
  lemma NumbersAgree(p: Packet, q: Packet)
    requires Words(p) == Words(q)
    requires
      || (p.ProtocolVersion? && q.ProtocolVersion?) || (p.CharacterDelete? && q.CharacterDelete?)
      || (p.CharacterRestore? && q.CharacterRestore?) || (p.CharacterSelect? && q.CharacterSelect?)
      || (p.MoveToLocation? && q.MoveToLocation?) || (p.ValidatePosition? && q.ValidatePosition?)
      || (p.EnterWorld? && q.EnterWorld?) || (p.Appearing? && q.Appearing?) || (p.Logout? && q.Logout?)
    ensures p == q
  {
    var v, w := Words(p), Words(q);
    assert forall i :: 0 <= i < |v| ==> v[i] == w[i];
  }

  /** The packets that carry a string. */
  lemma TextsAgree(p: Packet, q: Packet)
    requires Text(p) == Text(q) && Words(p) == Words(q)
    requires (p.AuthLogin? && q.AuthLogin?) || (p.CharacterCreate? && q.CharacterCreate?) || (p.Say2? && q.Say2?)
    ensures p == q
  {
    var v, w := Words(p), Words(q);
    assert forall i :: 0 <= i < |v| ==> v[i] == w[i];
  }

  /** The packets that name an object or an action. */
  lemma TailsAgree(p: Packet, q: Packet)
    requires Words(p) == Words(q) && Tail(p) == Tail(q)
    requires
      || (p.ActionUse? && q.ActionUse?) || (p.UseItem? && q.UseItem?) || (p.Action? && q.Action?)
      || (p.Attack? && q.Attack?) || (p.MagicSkillUse? && q.MagicSkillUse?)
    ensures p == q
  {
    var v, w := Words(p), Words(q);
    assert forall i :: 0 <= i < |v| ==> v[i] == w[i];
    if !p.UseItem? {
      assert Tail(p)[0] == Tail(q)[0];
    }
    if p.MagicSkillUse? {
      assert Tail(p)[1..] == p.left && Tail(q)[1..] == q.left;
    }
  }
}
