/**
 * From the connection to the lobby and into the world (internal/client/client.go:363-421,
 * internal/client/scenario.go:284-324): version, key exchange, login, character list, selection.
 */
module Lobby {
  import opened Bytes
  import opened Framing
  import opened RollingXor
  import opened Packets
  import S = ServerReader
  import opened Sequences
  import opened PacketIO
  import opened G = GameClient
  import Channel
  import L = Link
  import CharSelection
  import CharSelectionDecoder
  import CharSelected

  const PROTOCOL_VERSION: int32 := 140
  const OP_LOGIN_RESULT: byte := 0x0a
  const OP_CHAR_SELECTED: byte := 0x0b

  /** What a receiver with key k takes off a stream. */
  datatype Taken = Nothing | Plain(data: seq<byte>, key: Key, rest: seq<byte>)

  function Take(k: Key, stream: seq<byte>): Taken {
    match ReadFrame(stream)
    case Packet(cipher, rest) => Plain(Decrypted(k, cipher), Advance(k, |cipher|), rest)
    case _ => Nothing
  }

  datatype Reason =
    | WrongState | WriteFailed | ReadFailed | BadKeyPacket
    | UnexpectedOpcode(op: byte) | BadList(error: CharSelection.Error)

  datatype Lobby = Entered(info: CharSelection.Info) | Refused(reason: Reason) | Panicked

  /** An outcome, with the receiver's key and the stream behind it. */
  datatype Progress = Progress(lobby: Lobby, key: Key, rest: seq<byte>)

  /** Login result, then character list; a packet without an opcode is read beyond its end. */
  function LobbyOf(k: Key, stream: seq<byte>): Progress {
    match Take(k, stream)
    case Nothing => Progress(Refused(ReadFailed), k, stream)
    case Plain(result, k1, rest) =>
      if result == [] then Progress(Panicked, k1, rest)
      else if result[0] != OP_LOGIN_RESULT then Progress(Refused(UnexpectedOpcode(result[0])), k1, rest)
      else ListOf(k1, rest)
  }

  function ListOf(k: Key, stream: seq<byte>): Progress {
    match Take(k, stream)
    case Nothing => Progress(Refused(ReadFailed), k, stream)
    case Plain(list, k1, rest) =>
      if list == [] then Progress(Panicked, k1, rest)
      else if list[0] != CharSelection.OP_CHAR_SELECTION_INFO then
        Progress(Refused(UnexpectedOpcode(list[0])), k1, rest)
      else Progress(Listed(CharSelection.Parse(list)), k1, rest)
  }

  function Listed(r: CharSelection.Result<CharSelection.Info>): Lobby {
    if r.Ok? then Entered(r.value) else Refused(BadList(r.error))
  }

  datatype Exchange = NoKey(reason: Reason) | Keyed(key: Key, rest: seq<byte>)

  /** The first packet is the key, in the clear. */
  function KeyExchange(stream: seq<byte>): Exchange {
    match ReadFrame(stream)
    case Packet(data, rest) =>
      if Channel.IsKeyPacket(data) then Keyed(InitialKey(Channel.DynamicKey(data)), rest) else NoKey(BadKeyPacket)
    case _ => NoKey(ReadFailed)
  }

  // ---- Packets without an opcode ----

  /** A frame of nothing but its header. */
  predicate StartsEmpty(stream: seq<byte>) {
    |stream| >= HEADER_SIZE && stream[0] == 2 && stream[1] == 0
  }

  lemma EmptyPacket(k: Key, stream: seq<byte>)
    ensures StartsEmpty(stream) <==> Take(k, stream).Plain? && Take(k, stream).data == []
  {
  }

  /** On arbitrary bytes: the handshake reads an opcode that is not there exactly when one of its packets is empty. */
  lemma LobbyPanicsExactly(k: Key, stream: seq<byte>)
    ensures LobbyOf(k, stream).lobby == Panicked <==>
      || StartsEmpty(stream)
      || (var t := Take(k, stream);
          t.Plain? && t.data != [] && t.data[0] == 0x0a && StartsEmpty(t.rest))
    ensures LobbyOf(k, [2, 0]).lobby == Panicked
  {
    hide Take, StartsEmpty, CharSelection.Parse;
    EmptyPacket(k, stream);
    EmptyPacket(k, [2, 0]);
    TwoZeroStartsEmpty();
    if Take(k, stream).Plain? { EmptyPacket(Take(k, stream).key, Take(k, stream).rest); }
  }

  lemma TwoZeroStartsEmpty()
    ensures StartsEmpty([2, 0])
  {
  }

  // ---- The client ----

  datatype Credentials = Credentials(account: seq<byte>, play1: u32, play2: u32, login1: u32, login2: u32)

  function LoginOf(c: Credentials): Packet {
    AuthLogin(c.account, c.play1, c.play2, c.login1, c.login2)
  }

  /** Step 2: the key packet initialises both directions. */
  method ReceiveKey(c: Client) returns (refused: Option<Reason>)
    requires c.Valid()
    modifies c`state, c.gsConn`incoming, c.gsReader.buf, c.gsCrypt`init, c.gsCrypt.inKey, c.gsCrypt.outKey
    ensures match KeyExchange(old(c.gsConn.incoming))
            case Keyed(key, rest) => (
              && refused == None && c.state == GSHandshake && c.gsConn.incoming == rest
              && c.gsCrypt.init && c.gsCrypt.In() == key && c.gsCrypt.Out() == key)
            case NoKey(reason) => refused == Some(reason) && c.state == old(c.state)
  {
    hide InitialKey, KeyOf;
    var read := c.gsReader.Read();
    if read.Failed? { return Some(ReadFailed); }
    var data := read.data.arr[read.data.off..read.data.off + read.data.len];
    if !Channel.IsKeyPacket(data) { return Some(BadKeyPacket); }
    c.gsCrypt.Init(Channel.DynamicKey(data));
    c.state := GSHandshake;
    return None;
  }

  /** recvGS in the terms of Take. */
  method Receive(c: Client) returns (ok: bool, data: seq<byte>)
    requires c.Valid() && c.gsCrypt.init
    modifies c.gsConn`incoming, c.gsReader.buf, c.gsCrypt.inKey
    ensures match Take(old(c.gsCrypt.In()), old(c.gsConn.incoming))
            case Plain(plain, key, rest) =>
              ok && data == plain && c.gsCrypt.In() == key && c.gsConn.incoming == rest
            case Nothing => !ok
  {
    hide Decrypted, Advance;
    data := [];
    var read := c.RecvGS();
    ok := read.Ok?;
    if ok { data := read.data.arr[read.data.off..read.data.off + read.data.len]; }
  }

  /** Steps 4 and 5. */
  method ReceiveLobby(c: Client) returns (r: Lobby)
    requires c.Valid() && c.gsCrypt.init
    modifies c.gsConn`incoming, c.gsReader.buf, c.gsCrypt.inKey
    ensures Reached(c, r, LobbyOf(old(c.gsCrypt.In()), old(c.gsConn.incoming)))
  {
    hide Take, ListOf;
    var ok, data := Receive(c);
    if !ok { return Refused(ReadFailed); }
    if data == [] { return Panicked; }
    if data[0] != OP_LOGIN_RESULT { return Refused(UnexpectedOpcode(data[0])); }
    r := ReceiveList(c);
  }

  method ReceiveList(c: Client) returns (r: Lobby)
    requires c.Valid() && c.gsCrypt.init
    modifies c.gsConn`incoming, c.gsReader.buf, c.gsCrypt.inKey
    ensures Reached(c, r, ListOf(old(c.gsCrypt.In()), old(c.gsConn.incoming)))
  {
    hide Take, CharSelection.Parse;
    var ok, data := Receive(c);
    if !ok { return Refused(ReadFailed); }
    if data == [] { return Panicked; }
    if data[0] != CharSelection.OP_CHAR_SELECTION_INFO { return Refused(UnexpectedOpcode(data[0])); }
    var info := CharSelectionDecoder.DecodeCharSelectionInfo(data);
    r := if info.Ok? then Entered(info.value) else Refused(BadList(info.error));
  }

  /** The client is where a progress says it is, at least when it has entered. */
  ghost predicate Reached(c: Client, r: Lobby, p: Progress)
    requires c.Valid()
    reads c.gsConn, c.gsCrypt.inKey
  {
    r == p.lobby && (r.Entered? ==> c.gsCrypt.In() == p.key && c.gsConn.incoming == p.rest)
  }

  /**
   * The handshake, decided by what arrives and by how much the connection takes: the version goes out in the clear,
   * the key comes in, the login goes out under it, and what comes in then is the outcome. A refusal leaves what had
   * been sent by then. With room for both packets, the server gets exactly these.
   */
  method HandshakeToLobby(c: Client, login: Credentials) returns (r: Lobby)
    requires c.Valid() && Client.FitsRoom(LoginOf(login))
    modifies c`state, c.gsConn, c.gsReader.buf, c.gsWriter.buf, c.gsCrypt`init, c.gsCrypt.inKey, c.gsCrypt.outKey
    ensures Fits(Hello()) && S.OnWire(ProtocolVersion(140), Hello())
    ensures Fits(LoginBytes(login)) && S.OnWire(
      AuthLogin(login.account, login.play1, login.play2, login.login1, login.login2), LoginBytes(login))
    ensures old(c.state) != GSConnected ==>
      r == Refused(WrongState) && c.state == old(c.state) && c.gsConn.Out() == old(c.gsConn.Out())
    ensures old(c.state) == GSConnected ==>
      var greeted := Pushed(old(c.gsConn.Out()), Frame(Hello()));
      if |Frame(Hello())| > old(c.gsConn.room) then
        r == Refused(WriteFailed) && c.gsConn.Out() == greeted && c.state == GSConnected
      else
        match KeyExchange(old(c.gsConn.incoming))
        case NoKey(reason) => r == Refused(reason) && c.gsConn.Out() == greeted && c.state == GSConnected
        case Keyed(key, rest) => (
          && c.gsConn.Out() == Pushed(greeted, Frame(Encrypted(key, LoginBytes(login)))) && c.state == GSHandshake
          && c.gsCrypt.init && c.gsCrypt.Out() == Advance(key, |LoginBytes(login)|)
          && if |LoginBytes(login)| + HEADER_SIZE > greeted.room then r == Refused(WriteFailed)
             else Reached(c, r, LobbyOf(key, rest)))
  {
    hide InitialKey, Payload, Encrypted, Advance, LobbyOf, Frame, KeyExchange, KeyOf, Pushed, S.OnWire;
    HelloFits();
    LoginFits(login);
    PushedRoom(c.gsConn.Out(), Frame(Hello()));
    if c.state != GSConnected { return Refused(WrongState); }
    var ok := c.SendPlain(ProtocolVersion(PROTOCOL_VERSION));
    if !ok { return Refused(WriteFailed); }
    var refused := ReceiveKey(c);
    if refused.Some? { return Refused(refused.value); }
    ok := c.SendPacket(LoginOf(login));
    if !ok { return Refused(WriteFailed); }
    r := ReceiveLobby(c);
  }

  lemma PushedRoom(p: Pipe, data: seq<byte>)
    ensures Pushed(p, data).room == if |data| <= p.room then p.room - |data| else 0
  {
  }

  function LoginBytes(login: Credentials): seq<byte> {
    Payload(LoginOf(login))
  }

  lemma LoginFits(login: Credentials)
    requires Client.FitsRoom(LoginOf(login))
    ensures Fits(LoginBytes(login))
    ensures S.OnWire(
      AuthLogin(login.account, login.play1, login.play2, login.login1, login.login2), LoginBytes(login))
  {
    Client.PayloadFitsRoom(LoginOf(login));
    S.PayloadOnWire(LoginOf(login));
    hide Payload, S.OnWire;
  }

  function Hello(): seq<byte> {
    Payload(ProtocolVersion(PROTOCOL_VERSION))
  }

  lemma HelloFits()
    ensures Fits(Hello()) && Client.FitsRoom(ProtocolVersion(PROTOCOL_VERSION))
    ensures S.OnWire(ProtocolVersion(140), Hello())
  {
    Client.PayloadFitsRoom(ProtocolVersion(PROTOCOL_VERSION));
    S.PayloadOnWire(ProtocolVersion(140));
  }

  /** The client's two packets. */
  function Opening(key: Key, login: Credentials): seq<byte>
    requires Fits(Hello()) && Fits(LoginBytes(login))
  {
    Frame(Hello()) + Frame(Encrypted(key, LoginBytes(login)))
  }

  /** With room for both, they are what the connection has taken. */
  lemma OpeningTaken(p: Pipe, key: Key, login: Credentials)
    requires Fits(Hello()) && Fits(LoginBytes(login)) && |Opening(key, login)| <= p.room
    ensures Pushed(Pushed(p, Frame(Hello())), Frame(Encrypted(key, LoginBytes(login)))).sent
      == p.sent + Opening(key, login)
  {
    hide LoginBytes, Hello, Frame, Encrypted;
    ConcatAssociates(p.sent, Frame(Hello()), Frame(Encrypted(key, LoginBytes(login))));
  }

  // ---- Both ends together ----

  /** A frame sent under a key is taken off by a receiver with the same key. */
  lemma TakeOfFrame(k: Key, payload: seq<byte>, rest: seq<byte>)
    requires Fits(payload)
    ensures Take(k, Frame(Encrypted(k, payload)) + rest) == Plain(payload, Advance(k, |payload|), rest)
  {
    ReadFrameOfFrame(Encrypted(k, payload), rest);
    DecryptUndoesEncrypt(k, payload);
    hide Frame, Encrypted, Decrypted, Advance, ReadFrame;
  }

  /** What a server sends that accepts the login: key, result, list, and then anything. */
  function ServerSide(keyPacket: seq<byte>, result: seq<byte>, list: seq<byte>, rest: seq<byte>): seq<byte>
    requires Channel.IsKeyPacket(keyPacket) && Fits(keyPacket) && Fits(result) && Fits(list)
  {
    var k := InitialKey(Channel.DynamicKey(keyPacket));
    Frame(keyPacket) + (Frame(Encrypted(k, result)) + (Frame(Encrypted(Advance(k, |result|), list)) + rest))
  }

  /**
   * From end to end: whatever characters the server lists, the client enters with exactly these, its key moved on by
   * both packets and its stream at what follows them.
   */
  lemma LobbyRoundTrip(keyPacket: seq<byte>, result: seq<byte>, filler: seq<byte>, cs: seq<CharSelection.LobbyChar>,
                       fs: seq<CharSelection.Filler>, trailing: seq<byte>, rest: seq<byte>)
    requires Channel.IsKeyPacket(keyPacket) && Fits(keyPacket) && Fits(result)
    requires result != [] && result[0] == 0x0a
    requires |filler| == 13 && |cs| == |fs| < 0x1_0000_0000
    requires forall i :: 0 <= i < |cs| ==> CharSelection.Encodable(cs[i]) && fs[i].Valid()
    requires Fits(CharSelection.Serialise(filler, CharSelection.RawsOf(cs, fs)) + trailing)
    ensures var list := CharSelection.Serialise(filler, CharSelection.RawsOf(cs, fs)) + trailing;
      var k := InitialKey(Channel.DynamicKey(keyPacket));
      var x := KeyExchange(ServerSide(keyPacket, result, list, rest));
      && x.Keyed? && x.key == k
      && LobbyOf(x.key, x.rest)
        == Progress(Entered(CharSelection.Info(cs, |cs|)), Advance(k, |result| + |list|), rest)
  {
    hide Frame, Encrypted, Advance, InitialKey, Take, ServerSide, LobbyOf, KeyExchange, Behind;
    hide CharSelection.Parse, CharSelection.Serialise, CharSelection.RawsOf, CharSelection.Encodable;
    var list := CharSelection.Serialise(filler, CharSelection.RawsOf(cs, fs)) + trailing;
    CharSelection.CharactersRoundTrip(filler, cs, fs, trailing);
    ListHasOpcode(list);
    KeyFirst(keyPacket, result, list, rest);
    LobbyBehindKey(InitialKey(Channel.DynamicKey(keyPacket)), result, list, rest);
  }

  /** Nothing else lets the client in: a packet of opcode 0x0a, then an accepted one of opcode 0x09. */
  lemma EnteredBy(k: Key, stream: seq<byte>)
    ensures LobbyOf(k, stream).lobby.Entered? ==>
      var first := Take(k, stream);
      && first.Plain? && first.data != [] && first.data[0] == 0x0a
      && var second := Take(first.key, first.rest);
      && second.Plain? && second.data != [] && second.data[0] == 0x09
      && CharSelection.Parse(second.data) == CharSelection.Ok(LobbyOf(k, stream).lobby.info)
  {
    hide Take, CharSelection.Parse;
  }

  lemma ListHasOpcode(list: seq<byte>)
    requires CharSelection.Parse(list).Ok?
    ensures list != [] && list[0] == CharSelection.OP_CHAR_SELECTION_INFO
  {
  }

  /** What follows the key. */
  function Behind(k: Key, result: seq<byte>, list: seq<byte>, rest: seq<byte>): seq<byte>
    requires Fits(result) && Fits(list)
  {
    Frame(Encrypted(k, result)) + (Frame(Encrypted(Advance(k, |result|), list)) + rest)
  }

  lemma KeyFirst(keyPacket: seq<byte>, result: seq<byte>, list: seq<byte>, rest: seq<byte>)
    requires Channel.IsKeyPacket(keyPacket) && Fits(keyPacket) && Fits(result) && Fits(list)
    ensures var k := InitialKey(Channel.DynamicKey(keyPacket));
      KeyExchange(ServerSide(keyPacket, result, list, rest)) == Keyed(k, Behind(k, result, list, rest))
  {
    var k := InitialKey(Channel.DynamicKey(keyPacket));
    ReadFrameOfFrame(keyPacket, Behind(k, result, list, rest));
    hide Frame, Encrypted, Advance, InitialKey, ReadFrame;
  }

  lemma LobbyBehindKey(k: Key, result: seq<byte>, list: seq<byte>, rest: seq<byte>)
    requires Fits(result) && Fits(list)
    requires result != [] && result[0] == OP_LOGIN_RESULT
    requires list != [] && list[0] == CharSelection.OP_CHAR_SELECTION_INFO && CharSelection.Parse(list).Ok?
    ensures LobbyOf(k, Behind(k, result, list, rest))
      == Progress(Entered(CharSelection.Parse(list).value), Advance(k, |result| + |list|), rest)
  {
    hide Frame, Encrypted, Advance, Take, ListOf, CharSelection.Parse;
    var k1 := Advance(k, |result|);
    TakeOfFrame(k, result, Frame(Encrypted(k1, list)) + rest);
    ListInFrame(k1, list, rest);
    AdvanceAdds(k, |result|, |list|);
  }

  lemma ListInFrame(k: Key, list: seq<byte>, rest: seq<byte>)
    requires Fits(list) && list != [] && list[0] == CharSelection.OP_CHAR_SELECTION_INFO
    requires CharSelection.Parse(list).Ok?
    ensures ListOf(k, Frame(Encrypted(k, list)) + rest)
      == Progress(Entered(CharSelection.Parse(list).value), Advance(k, |list|), rest)
  {
    hide Frame, Encrypted, Advance, Take, CharSelection.Parse;
    TakeOfFrame(k, list, rest);
  }

  /** And the server gets the version, then the login, which determines every credential. */
  lemma ServerReadsOpening(key: Key, login: Credentials, rest: seq<byte>)
    requires Client.FitsRoom(LoginOf(login))
    ensures Fits(Hello()) && Fits(LoginBytes(login))
    ensures var first := ReadFrame(Opening(key, login) + rest);
      && first.Packet? && first.payload == Hello()
      && Take(key, first.rest) == Plain(LoginBytes(login), Advance(key, |LoginBytes(login)|), rest)
    ensures forall other :: LoginBytes(other) == LoginBytes(login) ==> other == login
  {
    hide Frame, Encrypted, Advance, Payload, Take, ReadFrame, Hello, Opening, Client.FitsRoom;
    HelloFits();
    LoginFits(login);
    OpeningParts(key, login, rest);
    forall other | LoginBytes(other) == LoginBytes(login) ensures other == login {
      PayloadInjective(LoginOf(other), LoginOf(login));
    }
  }

  lemma OpeningParts(key: Key, login: Credentials, rest: seq<byte>)
    requires Fits(Hello()) && Fits(LoginBytes(login))
    ensures var first := ReadFrame(Opening(key, login) + rest);
      && first.Packet? && first.payload == Hello()
      && Take(key, first.rest) == Plain(LoginBytes(login), Advance(key, |LoginBytes(login)|), rest)
  {
    hide Frame, Encrypted, Advance, LoginBytes, Take, ReadFrame, Hello;
    var p := LoginBytes(login);
    var second := Frame(Encrypted(key, p)) + rest;
    ReadFrameOfFrame(Hello(), second);
    TakeOfFrame(key, p, rest);
    ConcatAssociates(Frame(Hello()), Frame(Encrypted(key, p)), rest);
  }

  /** Both together: what a connection with room for the handshake's two packets has taken is read back as them. */
  lemma HandshakeIsReadBack(p: Pipe, key: Key, login: Credentials)
    requires Client.FitsRoom(LoginOf(login))
    ensures Fits(Hello()) && Fits(LoginBytes(login))
    ensures |Opening(key, login)| <= p.room ==>
      var after := Pushed(Pushed(p, Frame(Hello())), Frame(Encrypted(key, LoginBytes(login))));
      && p.sent <= after.sent
      && var first := ReadFrame(after.sent[|p.sent|..]);
      && first.Packet? && first.payload == Hello()
      && Take(key, first.rest) == Plain(LoginBytes(login), Advance(key, |LoginBytes(login)|), [])
  {
    hide Frame, Encrypted, Advance, Take, ReadFrame, Hello, LoginBytes, Opening, Pushed, Client.FitsRoom;
    HelloFits();
    LoginFits(login);
    if |Opening(key, login)| <= p.room {
      OpeningTaken(p, key, login);
      OpeningParts(key, login, []);
      assert Opening(key, login) + [] == Opening(key, login);
      assert (p.sent + Opening(key, login))[|p.sent|..] == Opening(key, login);
    }
  }

  // ---- Into the world ----

  datatype Selection = Selected(value: CharSelected.Selected) | NotSelected | OutOfBounds

  function Chosen(d: CharSelected.Outcome): Selection {
    match d
    case Done(value) => Selected(value)
    case Panics => OutOfBounds
    case _ => NotSelected
  }

  predicate IsSelected(data: seq<byte>) {
    data != [] && data[0] == OP_CHAR_SELECTED
  }

  /** A selection, with the receiver's key and the stream behind it. */
  datatype Landing = Landing(selection: Selection, key: Key, rest: seq<byte>)

  /** Packets are passed over until the selected character arrives; its decoder may leave the packet. */
  function Awaited(k: Key, stream: seq<byte>): Landing
    decreases |stream|
  {
    TakeShortens(k, stream);
    match Take(k, stream)
    case Nothing => Landing(NotSelected, k, stream)
    case Plain(data, key, rest) =>
      if IsSelected(data) then Landing(Chosen(CharSelected.Decode(data)), key, rest) else Awaited(key, rest)
  }

  /** Whatever other packets come first, the one with opcode 0x0b decides, and what follows it stays on the stream. */
  lemma {:induction false} AwaitedPassesOver(k: Key, others: seq<seq<byte>>, p: seq<byte>, rest: seq<byte>)
    requires L.AllFit(others) && Fits(p) && p != [] && p[0] == 0x0b
    requires forall i :: 0 <= i < |others| ==> others[i] == [] || others[i][0] != 0x0b
    ensures var n := TotalLength(others);
      Awaited(k, L.Flight(k, others) + (Frame(Encrypted(Advance(k, n), p)) + rest))
        == Landing(Chosen(CharSelected.Decode(p)), Advance(k, n + |p|), rest)
    decreases others
  {
    hide Frame, Encrypted, Advance, Take, CharSelected.Decode, Chosen;
    var n := TotalLength(others);
    if others == [] {
      AdvanceAdds(k, 0, 0);
      TakeOfFrame(k, p, rest);
      assert L.Flight(k, others) + (Frame(Encrypted(k, p)) + rest) == Frame(Encrypted(k, p)) + rest;
    } else {
      var k1 := Advance(k, |others[0]|);
      var left, m := L.Flight(k1, others[1..]), TotalLength(others[1..]);
      var tail := Frame(Encrypted(Advance(k, n), p)) + rest;
      AdvanceAdds(k, |others[0]|, m);
      AdvanceAdds(k, |others[0]|, m + |p|);
      AwaitedPassesOver(k1, others[1..], p, rest);
      TakeOfFrame(k, others[0], left + tail);
      ConcatAssociates(Frame(Encrypted(k, others[0])), left, tail);
    }
  }

  /**
   * From end to end: the fields the server serialised are the ones selected. A packet cut short selects nothing, and
   * makes the decoder leave it exactly when at most four bytes are missing.
   */
  lemma SelectionRoundTrip(k: Key, others: seq<seq<byte>>, r: CharSelected.Raw, s: CharSelected.Selected,
                           trailing: seq<byte>, cut: nat, rest: seq<byte>)
    requires L.AllFit(others) && forall i :: 0 <= i < |others| ==> others[i] == [] || others[i][0] != 0x0b
    requires r.Valid() && r.opcode == 0x0b && 0 < cut < |CharSelected.Serialise(r, s)|
    requires Fits(CharSelected.Serialise(r, s) + trailing)
    ensures var n, p := TotalLength(others), CharSelected.Serialise(r, s) + trailing;
      Awaited(k, L.Flight(k, others) + (Frame(Encrypted(Advance(k, n), p)) + rest))
        == Landing(Selected(s), Advance(k, n + |p|), rest)
    ensures var n, p := TotalLength(others), CharSelected.Serialise(r, s)[..cut];
      Awaited(k, L.Flight(k, others) + (Frame(Encrypted(Advance(k, n), p)) + rest)).selection
        == if cut + 4 >= |CharSelected.Serialise(r, s)| then OutOfBounds else NotSelected
  {
    hide Frame, Encrypted, Advance, Take, CharSelected.Decode, Awaited, CharSelected.Serialise, TotalLength;
    var whole := CharSelected.Serialise(r, s);
    SerialisedOpcode(r, s);
    CharSelected.RoundTrip(r, s, trailing);
    AwaitedPassesOver(k, others, whole + trailing, rest);
    CharSelected.TruncationOutcome(r, s, cut);
    AwaitedPassesOver(k, others, whole[..cut], rest);
  }

  lemma SerialisedOpcode(r: CharSelected.Raw, s: CharSelected.Selected)
    requires r.Valid()
    ensures var p := CharSelected.Serialise(r, s); p != [] && p[0] == r.opcode
  {
  }

  lemma TakeShortens(k: Key, stream: seq<byte>)
    ensures Take(k, stream).Plain? ==> |Take(k, stream).rest| < |stream|
  {
  }

  /** The client is where a landing says it is, at least when a character was selected. */
  ghost predicate Landed(c: Client, r: Selection, p: Landing)
    requires c.Valid()
    reads c.gsConn, c.gsCrypt.inKey
  {
    r == p.selection && (r.Selected? ==> c.gsCrypt.In() == p.key && c.gsConn.incoming == p.rest)
  }

  method AwaitSelected(c: Client) returns (r: Selection)
    requires c.Valid() && c.gsCrypt.init
    modifies c.gsConn`incoming, c.gsReader.buf, c.gsCrypt.inKey
    ensures Landed(c, r, Awaited(old(c.gsCrypt.In()), old(c.gsConn.incoming)))
  {
    hide Take, CharSelected.Decode, KeyOf, Chosen;
    ghost var answer := Awaited(c.gsCrypt.In(), c.gsConn.incoming);
    var data: seq<byte> := [];
    while !IsSelected(data)
      invariant answer == if IsSelected(data)
        then Landing(Chosen(CharSelected.Decode(data)), c.gsCrypt.In(), c.gsConn.incoming)
        else Awaited(c.gsCrypt.In(), c.gsConn.incoming)
      decreases |c.gsConn.incoming|
    {
      ghost var k, stream := c.gsCrypt.In(), c.gsConn.incoming;
      TakeShortens(k, stream);
      var ok;
      ok, data := Receive(c);
      if !ok {
        assert Awaited(k, stream).selection == NotSelected;
        return NotSelected;
      }
    }
    var decoded := CharSelected.DecodeCharSelected(data);
    r := Chosen(decoded);
  }

  /** Selects a character, waits for it, and enters the world; each packet goes out only if the one before did. */
  method SelectAndEnter(c: Client, slot: int32) returns (r: Selection)
    requires c.Valid() && c.gsCrypt.init
    modifies c`state, c.gsConn, c.gsReader.buf, c.gsWriter.buf, c.gsCrypt.inKey, c.gsCrypt.outKey
    ensures Fits(SelectBytes(slot)) && S.OnWire(CharacterSelect(slot), SelectBytes(slot))
    ensures Fits(EnterBytes()) && S.OnWire(EnterWorld, EnterBytes())
    ensures c.state == if r.Selected? then GSLoggedIn else old(c.state)
    ensures
      var k := old(c.gsCrypt.Out());
      var selected := Pushed(old(c.gsConn.Out()), Frame(Encrypted(k, SelectBytes(slot))));
      var answer := Awaited(old(c.gsCrypt.In()), old(c.gsConn.incoming));
      if |SelectBytes(slot)| + HEADER_SIZE > old(c.gsConn.room) then r == NotSelected && c.gsConn.Out() == selected
      else if !answer.selection.Selected? then r == answer.selection && c.gsConn.Out() == selected
      else
        && c.gsConn.Out() == Pushed(selected, Frame(Encrypted(Advance(k, |SelectBytes(slot)|), EnterBytes())))
        && c.gsCrypt.Out() == Advance(k, |SelectBytes(slot)| + |EnterBytes()|)
        && c.gsCrypt.In() == answer.key && c.gsConn.incoming == answer.rest
        && r == if |EnterBytes()| + HEADER_SIZE > selected.room then NotSelected else answer.selection
  {
    hide Payload, Encrypted, Advance, Frame, Awaited, KeyOf, Pushed, S.OnWire;
    SelectionFits(slot);
    PushedRoom(c.gsConn.Out(), Frame(Encrypted(c.gsCrypt.Out(), SelectBytes(slot))));
    AdvanceAdds(c.gsCrypt.Out(), |SelectBytes(slot)|, |EnterBytes()|);
    var ok := c.SendPacket(CharacterSelect(slot));
    if !ok { return NotSelected; }
    r := AwaitSelected(c);
    if r.Selected? {
      ok := c.SendPacket(EnterWorld);
      if ok { c.state := GSLoggedIn; } else { r := NotSelected; }
    }
  }

  function SelectBytes(slot: int32): seq<byte> {
    Payload(CharacterSelect(slot))
  }

  function EnterBytes(): seq<byte> {
    Payload(EnterWorld)
  }

  lemma SelectionFits(slot: int32)
    ensures Fits(SelectBytes(slot)) && S.OnWire(CharacterSelect(slot), SelectBytes(slot))
    ensures Fits(EnterBytes()) && S.OnWire(EnterWorld, EnterBytes())
  {
    hide S.OnWire;
    Client.PayloadFitsRoom(CharacterSelect(slot));
    Client.PayloadFitsRoom(EnterWorld);
    S.PayloadOnWire(CharacterSelect(slot));
    S.PayloadOnWire(EnterWorld);
  }
}
