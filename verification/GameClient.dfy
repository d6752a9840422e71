/** internal/client/client.go: sending and receiving game packets through the shared writer, reader and cipher. */
module GameClient {
  import opened Bytes
  import opened Sequences
  import opened Slices
  import opened Framing
  import opened RollingXor
  import opened PacketIO
  import opened GameCryptObject
  import opened Packets
  import S = ServerReader
  import opened Encoders
  import opened WideStrings
  import opened WordRuns

  /** The bytes of the send buffer a MagicSkillUse packet leaves as they were. */
  const LEFTOVER_START: nat := HEADER_SIZE + 10

  datatype State = GSConnected | GSHandshake | GSLoggedIn

  class Client {
    var state: State
    const gsConn: Conn
    const gsReader: Reader
    const gsWriter: Writer
    const gsCrypt: GameCrypt

    ghost predicate Valid() {
      && gsReader.Valid() && gsWriter.Valid() && gsCrypt.Valid()
      && gsReader.conn == gsConn && gsWriter.conn == gsConn
      && gsReader.buf != gsWriter.buf
      && gsCrypt.inKey != gsReader.buf && gsCrypt.inKey != gsWriter.buf
      && gsCrypt.outKey != gsReader.buf && gsCrypt.outKey != gsWriter.buf
    }

    /** ConnectToGameServer: fresh buffers and an uninitialised cipher on a new connection. */
    constructor (conn: Conn)
      ensures Valid() && gsConn == conn && !gsCrypt.init && state == GSConnected
      ensures fresh(gsCrypt) && fresh(gsCrypt.inKey) && fresh(gsCrypt.outKey)
      ensures fresh(gsReader.buf) && fresh(gsWriter.buf)
    {
      state, gsConn := GSConnected, conn;
      gsReader := new Reader(conn);
      gsWriter := new Writer(conn);
      gsCrypt := new GameCrypt();
    }

    /** What the cipher makes of a payload: itself, as long as no key has been exchanged. */
    ghost function Image(payload: seq<byte>): (image: seq<byte>)
      requires Valid()
      reads gsCrypt`init, gsCrypt.outKey
      ensures |image| == |payload|
    {
      if gsCrypt.init then Encrypted(gsCrypt.Out(), payload) else payload
    }

    /** The payload is encrypted where it lies and the writer frames that very buffer. */
    method SendGS(payload: Slice, n: nat) returns (ok: bool)
      requires Valid()
      requires payload.Valid() && n <= payload.len && payload.arr == gsWriter.buf && payload.off == HEADER_SIZE
      modifies gsConn`outgoing, gsConn`room, gsWriter.buf, gsCrypt.outKey
      ensures gsCrypt.Out() == if gsCrypt.init then Advance(old(gsCrypt.Out()), n) else old(gsCrypt.Out())
      ensures gsConn.Out() == Pushed(old(gsConn.Out()), Frame(old(Image(payload.View()[..n]))))
      ensures ok <==> n + HEADER_SIZE <= old(gsConn.room)
    {
      var data := payload.Upto(n);
      assert data.View() == payload.View()[..n];
      gsCrypt.Encrypt(data);
      assert gsWriter.buf[HEADER_SIZE..HEADER_SIZE + n] == data.View();
      ok := gsWriter.Send(n);
    }

    /** One frame, decrypted in the reader's buffer. */
    method RecvGS() returns (r: ReadOutcome)
      requires Valid()
      modifies gsConn`incoming, gsReader.buf, gsCrypt.inKey
      ensures match ReadFrame(old(gsConn.incoming))
              case Packet(cipher, rest) =>
                && r.Ok? && r.data.Valid() && r.data.arr == gsReader.buf && gsConn.incoming == rest
                && (gsCrypt.init ==>
                  r.data.View() == Decrypted(old(gsCrypt.In()), cipher) &&
                  gsCrypt.In() == Advance(old(gsCrypt.In()), |cipher|))
                && (!gsCrypt.init ==> r.data.View() == cipher && gsCrypt.In() == old(gsCrypt.In()))
              case Incomplete => r == Failed(StreamEnded) && gsCrypt.In() == old(gsCrypt.In())
              case BadSize => r == Failed(InvalidPacketSize) && gsCrypt.In() == old(gsCrypt.In())
    {
      r := gsReader.Read();
      if r.Failed? { return; }
      gsCrypt.Decrypt(r.data);
    }

    /** What a request becomes given the send buffer: only MagicSkillUse depends on the latter. */
    ghost function Filled(p: Packets.Packet): Packets.Packet
      requires Valid()
      reads gsWriter.buf
    {
      if p.MagicSkillUse? then p.(left := gsWriter.buf[LEFTOVER_START..LEFTOVER_START + 3]) else p
    }

    /** The room each sender asks Prepare for. */
    static function Room(p: Packets.Packet): nat {
      match p
      case ProtocolVersion(_) => 5
      case AuthLogin(account, _, _, _, _) => 1 + |account| * 2 + 2 + 16
      case CharacterDelete(_) => 16
      case CharacterRestore(_) => 16
      case CharacterCreate(_, _, _, _, _, _, _) => 100
      case CharacterSelect(_) => 30
      case MoveToLocation(_, _, _, _, _, _) => 30
      case ValidatePosition(_, _, _, _) => 30
      case ActionUse(_, _, _) => 15
      case UseItem(_, _) => 15
      case Action(_, _, _, _, _) => 20
      case Attack(_, _, _, _, _) => 20
      case MagicSkillUse(_, _, _, _) => 15
      case EnterWorld => 110
      case Say2(_, _) => 256
      case Appearing => 4
      case Logout => 1
    }

    /** The requests that fit the room; anything longer would run off the slice. */
    static predicate FitsRoom(p: Packets.Packet) {
      match p
      case AuthLogin(account, _, _, _, _) => 19 + |account| * 2 + HEADER_SIZE <= MAX_PACKET_SIZE
      case CharacterCreate(name, _, _, _, _, _, _) => |name| <= 24
      case Say2(text, _) => |text| <= 124
      case _ => true
    }

    static lemma PayloadFitsRoom(p: Packets.Packet)
      ensures FitsRoom(p) <==> |Payload(p)| <= Room(p) && Room(p) + HEADER_SIZE <= MAX_PACKET_SIZE
    {
      hide Stored, Widen;
    }

    lemma FilledFits(p: Packets.Packet)
      requires Valid() && FitsRoom(p)
      ensures |Payload(Filled(p))| == |Payload(p)| && Fits(Payload(p))
    {
      PayloadFitsRoom(p);
      hide Stored, Widen;
    }

    /** The senders: prepare, encode into the writer's buffer, and return what has to be sent from it. */
    method Encode(p: Packets.Packet) returns (payload: Slice, n: nat)
      requires Valid() && FitsRoom(p)
      modifies gsWriter.buf
      ensures payload.Valid() && payload.arr == gsWriter.buf && payload.off == HEADER_SIZE && n <= payload.len
      ensures payload.View()[..n] == Payload(old(Filled(p)))
    {
      hide Payload, Filled;
      PayloadFitsRoom(p);
      var room := gsWriter.Prepare(Room(p));
      payload := room.value;
      if p.MagicSkillUse? {
        n := EncodeSkill(p, payload);
      } else if BeforeTheWorld(p) {
        n := EncodeLobbyPacket(p, payload);
      } else {
        n := EncodeWorldPacket(p, payload);
      }
    }

    /** The packets of the way into the world. */
    static predicate BeforeTheWorld(p: Packets.Packet) {
      || p.ProtocolVersion? || p.AuthLogin? || p.CharacterDelete? || p.CharacterRestore?
      || p.CharacterCreate? || p.CharacterSelect? || p.EnterWorld?
    }

    method EncodeLobbyPacket(p: Packets.Packet, payload: Slice) returns (n: nat)
      requires Valid() && FitsRoom(p) && BeforeTheWorld(p)
      requires payload.Valid() && payload.arr == gsWriter.buf && payload.len == Room(p)
      modifies gsWriter.buf
      ensures n <= payload.len && payload.View()[..n] == Payload(old(Filled(p)))
    {
      hide Payload;
      match p {
        case ProtocolVersion(v) => EncodeProtocolVersionTo(v, payload); n := 5;
        case AuthLogin(a, p1, p2, l1, l2) => n := EncodeAuthLoginTo(a, p1, p2, l1, l2, payload);
        case CharacterDelete(slot) => n := EncodeGSCharacterDeleteTo(slot, payload);
        case CharacterRestore(slot) => n := EncodeGSCharacterRestoreTo(slot, payload);
        case CharacterCreate(name, r, f, c, hs, hc, fa) =>
          n := EncodeGSCharacterCreateTo(name, r, f, c, hs, hc, fa, payload);
        case CharacterSelect(slot) => n := EncodeGSCharacterSelectTo(slot, payload);
        case EnterWorld => n := EncodeGSEnterWorldTo(payload);
      }
    }

    method EncodeWorldPacket(p: Packets.Packet, payload: Slice) returns (n: nat)
      requires Valid() && FitsRoom(p) && !BeforeTheWorld(p) && !p.MagicSkillUse?
      requires payload.Valid() && payload.arr == gsWriter.buf && payload.len == Room(p)
      modifies gsWriter.buf
      ensures n <= payload.len && payload.View()[..n] == Payload(old(Filled(p)))
    {
      if p == Logout {
        payload.arr[payload.off] := OP_LOGOUT;
        n := 1;
        assert payload.View()[..1] == [OP_LOGOUT];
        LogoutPayload();
      } else {
        n := EncodeActionPacket(p, payload);
      }
    }

    static lemma LogoutPayload()
      ensures Payload(Logout) == [OP_LOGOUT]
    {
    }

    method EncodeActionPacket(p: Packets.Packet, payload: Slice) returns (n: nat)
      requires Valid() && FitsRoom(p) && !BeforeTheWorld(p) && !p.MagicSkillUse? && p != Logout
      requires payload.Valid() && payload.arr == gsWriter.buf && payload.len == Room(p)
      modifies gsWriter.buf
      ensures n <= payload.len && payload.View()[..n] == Payload(old(Filled(p)))
    {
      hide Payload;
      match p {
        case MoveToLocation(tx, ty, tz, ox, oy, oz) =>
          n := EncodeGSMoveToLocationTo(tx, ty, tz, ox, oy, oz, payload);
        case ValidatePosition(x, y, z, h) => n := EncodeGSValidatePositionTo(x, y, z, h, payload);
        case ActionUse(id, ctrl, shift) => n := EncodeGSRequestActionUseTo(id, ctrl, shift, payload);
        case UseItem(id, ctrl) => n := EncodeGSUseItemTo(id, ctrl, payload);
        case Action(id, x, y, z, b) => n := EncodeGSActionTo(id, x, y, z, b, payload);
        case Attack(id, x, y, z, b) => n := EncodeGSAttackRequestTo(id, x, y, z, b, payload);
        case Say2(text, chatType) => n := EncodeGSSay2To(text, chatType, payload);
        case Appearing => n := EncodeGSAppearingTo(payload);
      }
    }

    method EncodeSkill(p: Packets.Packet, payload: Slice) returns (n: nat)
      requires Valid() && p.MagicSkillUse?
      requires payload.Valid() && payload.arr == gsWriter.buf && payload.off == HEADER_SIZE && payload.len == Room(p)
      modifies gsWriter.buf
      ensures n <= payload.len && payload.View()[..n] == Payload(old(Filled(p)))
    {
      hide Payload;
      SliceOfSlice(gsWriter.buf[..], HEADER_SIZE, HEADER_SIZE + 15, 10, 13);
      n := EncodeGSRequestMagicSkillUseTo(p.magicId, p.ctrl, p.shift, payload);
    }

    /**
     * No stale bytes: what a request puts on the wire, and the key it leaves, are functions of the request,
     * the key and (for MagicSkillUse alone) three bytes of the buffer.
     */
    method SendPacket(p: Packets.Packet) returns (ok: bool)
      requires Valid() && gsCrypt.init && FitsRoom(p)
      modifies gsConn`outgoing, gsConn`room, gsWriter.buf, gsCrypt.outKey
      ensures |Payload(old(Filled(p)))| == |Payload(p)| && Fits(Payload(p))
      ensures S.OnWire(old(Filled(p)), Payload(old(Filled(p))))
      ensures gsCrypt.Out() == Advance(old(gsCrypt.Out()), |Payload(p)|)
      ensures gsConn.Out() == Pushed(old(gsConn.Out()), Frame(Encrypted(old(gsCrypt.Out()), Payload(old(Filled(p))))))
      ensures ok <==> |Payload(p)| + HEADER_SIZE <= old(gsConn.room)
    {
      hide Payload, Encrypted, Advance, Frame, FitsRoom, Filled, S.OnWire;
      FilledFits(p);
      S.PayloadOnWire(Filled(p));
      var payload, n := Encode(p);
      ok := SendGS(payload, n);
    }

    /** The version packet goes out in the clear. */
    method SendPlain(p: Packets.Packet) returns (ok: bool)
      requires Valid() && FitsRoom(p)
      modifies gsConn`outgoing, gsConn`room, gsWriter.buf
      ensures |Payload(old(Filled(p)))| == |Payload(p)| && Fits(Payload(p))
      ensures S.OnWire(old(Filled(p)), Payload(old(Filled(p))))
      ensures gsConn.Out() == Pushed(old(gsConn.Out()), Frame(Payload(old(Filled(p)))))
      ensures ok <==> |Payload(p)| + HEADER_SIZE <= old(gsConn.room)
    {
      hide Payload, Frame, FitsRoom, Filled, S.OnWire;
      FilledFits(p);
      S.PayloadOnWire(Filled(p));
      var payload, n := Encode(p);
      ok := SendAsIs(payload, n);
    }

    method SendAsIs(payload: Slice, n: nat) returns (ok: bool)
      requires Valid()
      requires payload.Valid() && n <= payload.len && payload.arr == gsWriter.buf && payload.off == HEADER_SIZE
      modifies gsConn`outgoing, gsConn`room, gsWriter.buf
      ensures gsConn.Out() == Pushed(old(gsConn.Out()), Frame(old(payload.View()[..n])))
      ensures ok <==> n + HEADER_SIZE <= old(gsConn.room)
    {
      hide Frame;
      assert gsWriter.buf[HEADER_SIZE..HEADER_SIZE + n] == payload.View()[..n];
      ok := gsWriter.Send(n);
    }
  }
}
