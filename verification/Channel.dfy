/**
 * One direction of the encrypted channel, as values: what sendGS puts on the stream
 * (internal/client/client.go:348-351), what recvGS takes off it (354-361), and everything in between.
 */
module Link {
  import opened Bytes
  import opened RollingXor
  import opened Framing

  /** sent and received record the payloads in the clear, for the statements below. */
  datatype Link = Link(outKey: Key, wire: seq<byte>, inKey: Key, sent: seq<seq<byte>>, received: seq<seq<byte>>)

  ghost predicate AllFit(packets: seq<seq<byte>>) {
    forall i :: 0 <= i < |packets| ==> Fits(packets[i])
  }

  /** The bytes that carry these packets to a receiver whose key is k. */
  ghost function Flight(k: Key, packets: seq<seq<byte>>): seq<byte>
    requires AllFit(packets)
    decreases packets
  {
    if packets == [] then []
    else Frame(Encrypted(k, packets[0])) + Flight(Advance(k, |packets[0]|), packets[1..])
  }

  /** The packets on their way: none is lost, reordered or damaged, and the sender is ahead by their lengths. */
  ghost predicate InStep(l: Link) {
    && l.received <= l.sent
    && AllFit(l.sent)
    && l.wire == Flight(l.inKey, l.sent[|l.received|..])
    && l.outKey == AdvanceAll(l.inKey, l.sent[|l.received|..])
  }

  function Transmit(l: Link, payload: seq<byte>): Link
    requires Fits(payload)
  {
    Link(Advance(l.outKey, |payload|), l.wire + Frame(Encrypted(l.outKey, payload)), l.inKey,
         l.sent + [payload], l.received)
  }

  /** A receiver waits (and the link stays as it is) while no whole frame has arrived. */
  function Receive(l: Link): Link {
    match ReadFrame(l.wire)
    case Packet(cipher, rest) =>
      Link(l.outKey, rest, Advance(l.inKey, |cipher|), l.sent, l.received + [Decrypted(l.inKey, cipher)])
    case _ => l
  }

  lemma {:induction false} FlightAppend(k: Key, packets: seq<seq<byte>>, p: seq<byte>)
    requires AllFit(packets) && Fits(p)
    ensures Flight(k, packets + [p]) == Flight(k, packets) + Frame(Encrypted(AdvanceAll(k, packets), p))
    decreases packets
  {
    hide Frame, Encrypted, Advance;
    if packets == [] {
      assert (packets + [p])[1..] == [];
    } else {
      FlightAppend(Advance(k, |packets[0]|), packets[1..], p);
      assert (packets + [p])[1..] == packets[1..] + [p];
    }
  }

  lemma TransmitKeepsStep(l: Link, payload: seq<byte>)
    requires InStep(l) && Fits(payload)
    ensures InStep(Transmit(l, payload))
  {
    var flying := l.sent[|l.received|..];
    FlightAppend(l.inKey, flying, payload);
    AdvanceAllAppend(l.inKey, flying, payload);
    hide Frame, Encrypted, Advance, Flight, AdvanceAll;
    assert (l.sent + [payload])[|l.received|..] == flying + [payload];
  }

  /** While packets fly the receiver is never starved or misled: it gets exactly the next one. */
  lemma ReceiveDelivers(l: Link)
    requires InStep(l)
    ensures InStep(Receive(l))
    ensures |l.received| < |l.sent| ==> Receive(l).received == l.received + [l.sent[|l.received|]]
    ensures |l.received| == |l.sent| ==> Receive(l) == l && l.wire == []
    ensures ReadFrame(l.wire) != BadSize
  {
    var flying := l.sent[|l.received|..];
    if flying != [] {
      var cipher, rest := Encrypted(l.inKey, flying[0]), Flight(Advance(l.inKey, |flying[0]|), flying[1..]);
      ReadFrameOfFrame(cipher, rest);
      DecryptUndoesEncrypt(l.inKey, flying[0]);
      hide Frame, Encrypted, Decrypted, Advance;
      assert flying[1..] == l.sent[|l.received| + 1..];
    }
  }

  /** The sender's key is the receiver's, moved on by the number of bytes in flight. */
  lemma KeysDifferByFlight(l: Link)
    requires InStep(l)
    ensures l.outKey == Advance(l.inKey, TotalLength(l.sent[|l.received|..]))
  {
    AdvanceAllTotal(l.inKey, l.sent[|l.received|..]);
  }

  /** Reading on until the stream is dry. */
  function Drain(l: Link): Link
    decreases |l.wire|
  {
    match ReadFrame(l.wire)
    case Packet(_, rest) => Drain(Receive(l))
    case _ => l
  }

  lemma {:induction false} DrainDeliversAll(l: Link)
    requires InStep(l)
    ensures Drain(l).received == l.sent && Drain(l).wire == [] && Drain(l).inKey == l.outKey
    decreases |l.wire|
  {
    ReceiveDelivers(l);
    if ReadFrame(l.wire).Packet? {
      DrainDeliversAll(Receive(l));
    }
  }
}

/**
 * Both directions of the game channel with the handshake that opens it
 * (internal/client/client.go:366-399). The peer is a second cipher given the same dynamic key.
 */
module Channel {
  import opened Bytes
  import opened RollingXor
  import opened Framing
  import opened Sequences
  import opened L = Link

  const OP_KEY_PACKET: byte := 0x2e

  /** One endpoint's cipher: until it is initialised it changes nothing. */
  datatype End = End(init: bool, inKey: Key, outKey: Key)

  datatype Phase = Start | HelloSent | KeySent | Open

  datatype Channel = Channel(
    phase: Phase, client: End, server: End,
    up: seq<byte>, down: seq<byte>,
    upSent: seq<seq<byte>>, upReceived: seq<seq<byte>>,
    downSent: seq<seq<byte>>, downReceived: seq<seq<byte>>)

  datatype Event =
    | ClientHello(version: seq<byte>)
    | ServerKey(packet: seq<byte>)
    | ClientKey
    | ClientSend(payload: seq<byte>)
    | ClientReceive
    | ServerSend(payload: seq<byte>)
    | ServerReceive

  /** DecodeGSKeyPacket (internal/net/protocol.go:314-325). */
  predicate IsKeyPacket(data: seq<byte>) {
    |data| >= 18 && data[0] == OP_KEY_PACKET
  }

  function DynamicKey(data: seq<byte>): (key: seq<byte>)
    requires IsKeyPacket(data)
    ensures |key| == 16
  {
    data[2..18]
  }

  /** A key packet is 18 bytes or more behind opcode 0x2e; bytes 2 to 9 start the key, eight constants end it. */
  lemma KeyOfPacket(data: seq<byte>)
    ensures IsKeyPacket(data) <==> |data| >= 18 && data[0] == 0x2e
    ensures IsKeyPacket(data) ==>
      var e := Initialised(DynamicKey(data));
      && e.init && e.inKey == e.outKey
      && KeyBytes(e.inKey) == data[2..10] + [0xc8, 0x27, 0x93, 0x01, 0xa1, 0x6c, 0x31, 0x97]
  {
    if IsKeyPacket(data) {
      hide InitialKey, KeyBytes;
      InitialKeyBytes(DynamicKey(data));
      assert DynamicKey(data)[..8] == data[2..10];
    }
  }

  function Initialised(dynamicKey: seq<byte>): End
    requires |dynamicKey| >= 8
  {
    End(true, InitialKey(dynamicKey), InitialKey(dynamicKey))
  }

  function Outgoing(e: End, payload: seq<byte>): seq<byte> {
    if e.init then Encrypted(e.outKey, payload) else payload
  }

  function Incoming(e: End, data: seq<byte>): seq<byte> {
    if e.init then Decrypted(e.inKey, data) else data
  }

  function AfterSend(e: End, n: nat): End {
    if e.init then e.(outKey := Advance(e.outKey, n)) else e
  }

  function AfterReceive(e: End, n: nat): End {
    if e.init then e.(inKey := Advance(e.inKey, n)) else e
  }

  function ClientTakes(c: Channel): Channel {
    match ReadFrame(c.down)
    case Packet(data, rest) =>
      c.(down := rest, downReceived := c.downReceived + [Incoming(c.client, data)],
         client := AfterReceive(c.client, |data|))
    case _ => c
  }

  /** An event that is not possible yet changes nothing. */
  function Next(c: Channel, e: Event): Channel {
    match e
    case ClientHello(version) =>
      if c.phase != Start || !Fits(version) then c
      else c.(phase := HelloSent, up := c.up + Frame(Outgoing(c.client, version)), upSent := c.upSent + [version],
              client := AfterSend(c.client, |version|))
    case ServerKey(packet) =>
      if c.phase != HelloSent || c.upReceived == [] || !Fits(packet) || !IsKeyPacket(packet) then c
      else c.(phase := KeySent, down := c.down + Frame(Outgoing(c.server, packet)), downSent := c.downSent + [packet],
              server := Initialised(DynamicKey(packet)))
    case ClientKey =>
      if c.phase != KeySent then c
      else
        var d := ClientTakes(c);
        if d.downReceived == [] || !IsKeyPacket(d.downReceived[0]) then c
        else d.(phase := Open, client := Initialised(DynamicKey(d.downReceived[0])))
    case ClientSend(payload) =>
      if c.phase != Open || !Fits(payload) then c
      else c.(up := c.up + Frame(Outgoing(c.client, payload)), upSent := c.upSent + [payload],
              client := AfterSend(c.client, |payload|))
    case ClientReceive =>
      if c.phase != Open then c else ClientTakes(c)
    case ServerSend(payload) =>
      if !c.server.init || !Fits(payload) then c
      else c.(down := c.down + Frame(Outgoing(c.server, payload)), downSent := c.downSent + [payload],
              server := AfterSend(c.server, |payload|))
    case ServerReceive =>
      var reading := ReadFrame(c.up);
      if !reading.Packet? then c
      else c.(up := reading.rest, upReceived := c.upReceived + [Incoming(c.server, reading.payload)],
              server := AfterReceive(c.server, |reading.payload|))
  }

  function Run(c: Channel, events: seq<Event>): Channel
    decreases events
  {
    if events == [] then c else Run(Next(c, events[0]), events[1..])
  }

  function Closed(): Channel {
    var blank := KeyOf(Zeros(16));
    Channel(Start, End(false, blank, blank), End(false, blank, blank), [], [], [], [], [], [])
  }

  ghost function Up(c: Channel): Link {
    L.Link(c.client.outKey, c.up, c.server.inKey, c.upSent, c.upReceived)
  }

  ghost function Down(c: Channel): Link {
    L.Link(c.server.outKey, c.down, c.client.inKey, c.downSent, c.downReceived)
  }

  ghost predicate Handshaking(c: Channel) {
    match c.phase
    case Start =>
      c.up == [] && c.upSent == [] && c.upReceived == []
    case HelloSent => (
      && |c.upSent| == 1 && Fits(c.upSent[0])
      && ((c.upReceived == [] && c.up == Frame(c.upSent[0])) || (c.upReceived == c.upSent && c.up == [])))
    case _ => (
      && |c.downSent| > 0 && IsKeyPacket(c.downSent[0]) && AllFit(c.downSent) && AllFit(c.upSent)
      && c.upReceived == c.upSent && c.up == []
      && var first := InitialKey(DynamicKey(c.downSent[0]));
      && c.server.inKey == first
      && c.down == Frame(c.downSent[0]) + Flight(first, c.downSent[1..])
      && c.server.outKey == AdvanceAll(first, c.downSent[1..]))
  }

  /** What holds in every reachable state. */
  ghost predicate Synchronised(c: Channel) {
    && c.client.init == (c.phase == Open)
    && c.server.init == (c.phase == KeySent || c.phase == Open)
    && (!c.server.init ==> c.down == [] && c.downSent == [])
    && (c.phase != Open ==> c.downReceived == [] && Handshaking(c))
    && (c.phase == Open ==> InStep(Up(c)) && InStep(Down(c)))
  }

  lemma HandshakeStep(c: Channel, e: Event)
    requires Synchronised(c) && c.phase != Open
    ensures Synchronised(Next(c, e))
  {
    match e {
      case ServerReceive => HelloArrives(c);
      case ServerKey(packet) => KeyLeaves(c, packet);
      case ServerSend(payload) => EarlySend(c, payload);
      case ClientKey => KeyArrives(c);
      case _ =>
        hide Frame, Encrypted, Decrypted, Advance, ReadFrame, InitialKey;
    }
  }

  lemma HelloArrives(c: Channel)
    requires Synchronised(c) && c.phase != Open
    ensures Synchronised(Next(c, ServerReceive))
  {
    hide Frame, Encrypted, Decrypted, Advance, ReadFrame, InitialKey;
    if c.up == [] {
      EmptyWire();
    } else {
      ReadFrameOfFrame(c.upSent[0], []);
      assert Frame(c.upSent[0]) + [] == c.up;
    }
  }

  lemma KeyLeaves(c: Channel, packet: seq<byte>)
    requires Synchronised(c) && c.phase != Open
    ensures Synchronised(Next(c, ServerKey(packet)))
  {
    hide Frame, Encrypted, Decrypted, Advance, ReadFrame, InitialKey;
    if Next(c, ServerKey(packet)) != c {
      assert c.downSent + [packet] == [packet];
      assert [] + Frame(packet) == Frame(packet) + [];
    }
  }

  lemma EarlySend(c: Channel, payload: seq<byte>)
    requires Synchronised(c) && c.phase != Open
    ensures Synchronised(Next(c, ServerSend(payload)))
  {
    hide Frame, Encrypted, Decrypted, Advance, ReadFrame, InitialKey, Flight, AdvanceAll;
    if Next(c, ServerSend(payload)) != c {
      var first, rest := InitialKey(DynamicKey(c.downSent[0])), c.downSent[1..];
      assert AllFit(rest);
      FlightAppend(first, rest, payload);
      AdvanceAllAppend(first, rest, payload);
      assert (c.downSent + [payload])[1..] == rest + [payload];
      ConcatAssociates(Frame(c.downSent[0]), Flight(first, rest), Frame(Encrypted(c.server.outKey, payload)));
    }
  }

  lemma KeyArrives(c: Channel)
    requires Synchronised(c) && c.phase != Open
    ensures Synchronised(Next(c, ClientKey))
  {
    hide Frame, Encrypted, Decrypted, Advance, ReadFrame, InitialKey, Flight, AdvanceAll;
    var d := Next(c, ClientKey);
    if d != c {
      ReadFrameOfFrame(c.downSent[0], Flight(InitialKey(DynamicKey(c.downSent[0])), c.downSent[1..]));
      assert d.downReceived == [c.downSent[0]];
      NothingFlies(d.client.outKey);
      assert d.upSent[|d.upReceived|..] == [];
    }
  }

  lemma NothingFlies(k: Key)
    ensures Flight(k, []) == [] && AdvanceAll(k, []) == k
  {
  }

  lemma EmptyWire()
    ensures ReadFrame([]) == Incomplete
  {
  }

  lemma OpenStep(c: Channel, e: Event)
    requires Synchronised(c) && c.phase == Open
    ensures Synchronised(Next(c, e))
  {
    hide Frame, Encrypted, Decrypted, Advance, ReadFrame, InStep;
    match e
    case ClientSend(payload) => if Fits(payload) { TransmitKeepsStep(Up(c), payload); }
    case ServerSend(payload) => if Fits(payload) { TransmitKeepsStep(Down(c), payload); }
    case ServerReceive => ReceiveDelivers(Up(c));
    case ClientReceive => ReceiveDelivers(Down(c));
    case _ =>
  }

  lemma {:induction false} RunSynchronised(c: Channel, events: seq<Event>)
    requires Synchronised(c)
    ensures Synchronised(Run(c, events))
    decreases events
  {
    if events != [] {
      if c.phase == Open { OpenStep(c, events[0]); } else { HandshakeStep(c, events[0]); }
      RunSynchronised(Next(c, events[0]), events[1..]);
    }
  }

  /**
   * Exact delivery: whatever the interleaving of both endpoints, each side has received a prefix of what the
   * other sent, byte for byte; once open, each sender's key is its receiver's moved on by the bytes in flight,
   * and reading on yields everything sent.
   */
  lemma ExactDelivery(events: seq<Event>)
    ensures var c := Run(Closed(), events);
      && c.upReceived <= c.upSent && c.downReceived <= c.downSent
      && (c.phase == Open ==>
        && c.client.outKey == Advance(c.server.inKey, TotalLength(c.upSent[|c.upReceived|..]))
        && c.server.outKey == Advance(c.client.inKey, TotalLength(c.downSent[|c.downReceived|..]))
        && Drain(Up(c)).received == c.upSent && Drain(Down(c)).received == c.downSent)
  {
    RunSynchronised(Closed(), events);
    var c := Run(Closed(), events);
    if c.phase == Open {
      KeysDifferByFlight(Up(c));
      KeysDifferByFlight(Down(c));
      DrainDeliversAll(Up(c));
      DrainDeliversAll(Down(c));
    }
  }
}
