/** internal/client/client.go:109-307: the login server's conversation, request by request. */
module LoginClient {
  import opened Bytes
  import opened Slices
  import opened Framing
  import opened PacketIO
  import opened LoginCipher
  import opened Sequences
  import opened ServerCrypt
  import opened InitPacket
  import opened Rsa
  import opened LoginBlock
  import opened Packets
  import opened Encoders
  import opened WordRuns

  const OP_LOGIN_FAIL: byte := 0x01
  const OP_LOGIN_SUCCESS: byte := 0x03
  const OP_GG_AUTH_RESPONSE: byte := 0x0b
  const OP_SERVER_LIST: byte := 0x04
  const OP_PLAY_FAIL: byte := 0x06
  const OP_PLAY_SUCCESS: byte := 0x07

  const ROOM: nat := MAX_PACKET_SIZE - HEADER_SIZE

  // ---- What a request puts on the wire, and what the server makes of it ----

  predicate FitsPadded(payload: seq<byte>, first: bool) {
    PaddedLength(|payload|, first) <= ROOM
  }

  /** The length header, then payload, zeros and checksum under the block cipher. */
  function LoginFrame(c: Cipher, payload: seq<byte>, first: bool): seq<byte>
    requires FitsPadded(payload, first)
  {
    Frame(Enciphered(c, Padded(payload, PaddedLength(|payload|, first))))
  }

  /** On the wire: the length header, the payload and sixteen, later twelve, bytes, rounded up to blocks of eight. */
  lemma LoginFrameLength(c: Cipher, payload: seq<byte>, first: bool)
    requires FitsPadded(payload, first)
    ensures var n := |LoginFrame(c, payload, first)| - 2;
      && n % 8 == 0
      && (first ==> |payload| + 16 <= n < |payload| + 24) && (!first ==> |payload| + 12 <= n < |payload| + 20)
  {
    hide PaddedLength, Padded, Enciphered, Reserve;
    PaddedLengthBounds(|payload|, first);
  }

  ghost predicate AllFitPadded(payloads: seq<seq<byte>>, first: bool) {
    forall i :: 0 <= i < |payloads| ==> FitsPadded(payloads[i], first && i == 0)
  }

  ghost function LoginStream(c: Cipher, payloads: seq<seq<byte>>, first: bool): seq<byte>
    requires AllFitPadded(payloads, first)
  {
    if payloads == [] then []
    else LoginFrame(c, payloads[0], first) + LoginStream(c, payloads[1..], false)
  }

  /** A peer that reads frame after frame and deciphers each. */
  function PeerReads(c: Cipher, stream: seq<byte>): seq<seq<byte>>
    decreases |stream|
  {
    match ReadFrame(stream)
    case Packet(wire, rest) =>
      if |wire| % BLOCK == 0 then [Deciphered(c, wire)] + PeerReads(c, rest) else []
    case _ => []
  }

  /** A plaintext that carries the payload, intact and signed. */
  ghost predicate Carries(plain: seq<byte>, payload: seq<byte>) {
    payload <= plain && Checksum(plain) == 0
  }

  /** The plaintext of a request. */
  function Plaintext(payload: seq<byte>, first: bool): seq<byte> {
    Padded(payload, PaddedLength(|payload|, first))
  }

  lemma PeerReadsFrame(c: Cipher, p: seq<byte>, first: bool, rest: seq<byte>)
    requires FitsPadded(p, first)
    ensures PeerReads(c, LoginFrame(c, p, first) + rest) == [Plaintext(p, first)] + PeerReads(c, rest)
    ensures Carries(Plaintext(p, first), p)
  {
    hide Padded, Enciphered, Deciphered, PaddedLength, Checksum, Frame, ReadFrame;
    ReadFrameOfFrame(Enciphered(c, Padded(p, PaddedLength(|p|, first))), rest);
    PeerRecovers(c, p, first);
  }

  /** Every request of a session reaches the server, in order, as a prefix of a plaintext whose words cancel. */
  lemma {:induction false} PeerRecoversSession(c: Cipher, payloads: seq<seq<byte>>, first: bool)
    requires AllFitPadded(payloads, first)
    ensures var got := PeerReads(c, LoginStream(c, payloads, first));
      |got| == |payloads| && forall i :: 0 <= i < |got| ==> Carries(got[i], payloads[i])
  {
    if payloads == [] {
      NothingRead(c);
    } else {
      hide PeerReads, LoginFrame, Carries, FitsPadded, Plaintext;
      var rest := LoginStream(c, payloads[1..], false);
      assert FitsPadded(payloads[0], first && 0 == 0);
      PeerReadsFrame(c, payloads[0], first, rest);
      assert AllFitPadded(payloads[1..], false) by {
        forall i | 0 <= i < |payloads[1..]| ensures FitsPadded(payloads[1..][i], false && i == 0) {
          assert FitsPadded(payloads[i + 1], first && i + 1 == 0);
        }
      }
      PeerRecoversSession(c, payloads[1..], false);
      CarriesTogether([Plaintext(payloads[0], first)] + PeerReads(c, rest), payloads);
    }
  }

  lemma NothingRead(c: Cipher)
    ensures PeerReads(c, []) == []
  {
  }

  lemma CarriesTogether(got: seq<seq<byte>>, payloads: seq<seq<byte>>)
    requires |got| == |payloads| > 0 && Carries(got[0], payloads[0])
    requires forall i :: 0 <= i < |got[1..]| ==> Carries(got[1..][i], payloads[1..][i])
    ensures forall i :: 0 <= i < |got| ==> Carries(got[i], payloads[i])
  {
    hide Carries;
    forall i | 0 <= i < |got| ensures Carries(got[i], payloads[i]) {
      if i > 0 {
        assert Carries(got[1..][i - 1], payloads[1..][i - 1]);
      }
    }
  }

  lemma {:induction false} LoginStreamAppend(c: Cipher, payloads: seq<seq<byte>>, p: seq<byte>, first: bool)
    requires AllFitPadded(payloads, first) && FitsPadded(p, first && payloads == [])
    ensures AllFitPadded(payloads + [p], first)
    ensures LoginStream(c, payloads + [p], first)
      == LoginStream(c, payloads, first) + LoginFrame(c, p, first && payloads == [])
  {
    hide LoginFrame, FitsPadded;
    if payloads == [] {
      assert (payloads + [p])[1..] == [];
    } else {
      assert (payloads + [p])[1..] == payloads[1..] + [p];
      assert AllFitPadded(payloads[1..], false) by {
        forall i | 0 <= i < |payloads[1..]| ensures FitsPadded(payloads[1..][i], false) {
          assert FitsPadded(payloads[i + 1], first && i + 1 == 0);
        }
      }
      LoginStreamAppend(c, payloads[1..], p, false);
    }
  }

  /** The next response as the client sees it: a frame of whole blocks, and at least one. */
  function Answer(c: Cipher, incoming: seq<byte>): (a: Option<seq<byte>>)
    ensures a.Some? ==> a.value != []
  {
    match ReadFrame(incoming)
    case Packet(wire, _) => if |wire| > 0 && |wire| % BLOCK == 0 then Some(Deciphered(c, wire)) else None
    case _ => None
  }

  /** One request takes its frame to the connection; there is an answer only if the frame was taken whole. */
  ghost predicate Exchanged(c: Cipher, payload: seq<byte>, first: bool, before: Pipe, after: Pipe,
                            incoming: seq<byte>, left: seq<byte>, response: Option<seq<byte>>) {
    && FitsPadded(payload, first)
    && var frame := LoginFrame(c, payload, first);
    && after == Pushed(before, frame)
    && if |frame| <= before.room then response == Answer(c, incoming) && left == Remaining(incoming)
       else response == None && left == incoming
  }

  /** The stream behind the next frame, or behind what is left of it. */
  function Remaining(stream: seq<byte>): seq<byte> {
    match ReadFrame(stream)
    case Packet(_, rest) => rest
    case Incomplete => []
    case BadSize => stream[HEADER_SIZE..]
  }

  datatype KeyPair = KeyPair(first: u32, second: u32)

  /** What came of a request for keys. */
  datatype Verdict = Granted(keys: KeyPair) | NoAnswer | TooShortForKeys | Denied | Unexpected

  /** DecodeLoginOk and DecodePlayOk, behind the tests of the opcode. */
  function KeysIn(response: Option<seq<byte>>, success: byte, failure: byte): Verdict {
    if response.None? || response.value == [] then NoAnswer
    else if response.value[0] == success then
      if |response.value| < 9 then TooShortForKeys
      else Granted(KeyPair(Le32(response.value, 1), Le32(response.value, 5)))
    else if response.value[0] == failure then Denied
    else Unexpected
  }

  /** A response as the server sends it. */
  function Reply(c: Cipher, plain: seq<byte>): seq<byte>
    requires |plain| % 8 == 0 && Fits(plain)
  {
    Frame(Enciphered(c, plain))
  }

  lemma AnswerOfReply(c: Cipher, plain: seq<byte>, rest: seq<byte>)
    requires |plain| % 8 == 0 && plain != [] && Fits(plain)
    ensures Answer(c, Reply(c, plain) + rest) == Some(plain) && Remaining(Reply(c, plain) + rest) == rest
  {
    hide Frame, Enciphered, Deciphered, ReadFrame;
    ReadFrameOfFrame(Enciphered(c, plain), rest);
    DecipherUndoesEncipher(c, plain);
  }

  /**
   * From end to end: two keys behind a granting opcode are the keys the client stores, in that order; the refusing
   * opcode denies them, and any other is unexpected. What follows the answer stays on the stream.
   */
  lemma KeysComeThrough(c: Cipher, opcode: byte, first: u32, second: u32, trailing: seq<byte>, rest: seq<byte>)
    requires var plain := [opcode] + Put32(first) + Put32(second) + trailing; |plain| % 8 == 0 && Fits(plain)
    ensures
      var stream := Reply(c, [opcode] + Put32(first) + Put32(second) + trailing) + rest;
      && Remaining(stream) == rest
      && KeysIn(Answer(c, stream), 0x03, 0x01) == (
        if opcode == 0x03 then Granted(KeyPair(first, second)) else if opcode == 0x01 then Denied else Unexpected)
      && KeysIn(Answer(c, stream), 0x07, 0x06) == (
        if opcode == 0x07 then Granted(KeyPair(first, second)) else if opcode == 0x06 then Denied else Unexpected)
  {
    hide Put32, Le32, Answer, Reply, Remaining;
    var plain := [opcode] + Put32(first) + Put32(second) + trailing;
    assert plain[1..5] == Put32(first) && plain[5..9] == Put32(second);
    Le32Stored(plain, 1, first);
    Le32Stored(plain, 5, second);
    AnswerOfReply(c, plain, rest);
  }

  /** Eight bytes hold no two keys. */
  lemma ShortGrant(c: Cipher, plain: seq<byte>, rest: seq<byte>)
    requires |plain| == 8
    ensures KeysIn(Answer(c, Reply(c, plain) + rest), plain[0], 0x01) == TooShortForKeys
  {
    hide Answer, Reply;
    AnswerOfReply(c, plain, rest);
  }

  lemma GrantedByAnswer(response: Option<seq<byte>>, success: byte, failure: byte)
    requires KeysIn(response, success, failure).Granted?
    ensures response.Some?
  {
  }

  // ---- Several exchanges ----

  /** Since start, the connection has taken the stream of these payloads. */
  ghost predicate Carried(c: Cipher, start: seq<byte>, taken: seq<byte>, sent: seq<seq<byte>>) {
    AllFitPadded(sent, true) && taken == start + LoginStream(c, sent, true)
  }

  /** A server that reads on from start recovers each payload from its plaintext. */
  ghost predicate Recovered(c: Cipher, start: seq<byte>, taken: seq<byte>, sent: seq<seq<byte>>) {
    && start <= taken
    && var got := PeerReads(c, taken[|start|..]);
    && |got| == |sent| && forall i :: 0 <= i < |got| ==> Carries(got[i], sent[i])
  }

  lemma CarriedNothing(c: Cipher, start: seq<byte>)
    ensures Carried(c, start, start, [])
  {
  }

  lemma CarriedMore(c: Cipher, start: seq<byte>, sent: seq<seq<byte>>, payload: seq<byte>, before: Pipe, after: Pipe,
                    incoming: seq<byte>, left: seq<byte>, response: Option<seq<byte>>)
    requires Carried(c, start, before.sent, sent)
    requires Exchanged(c, payload, sent == [], before, after, incoming, left, response) && response.Some?
    ensures Carried(c, start, after.sent, sent + [payload])
  {
    hide LoginFrame, LoginStream, FitsPadded, Answer, Remaining, AllFitPadded;
    LoginStreamAppend(c, sent, payload, true);
    ConcatAssociates(start, LoginStream(c, sent, true), LoginFrame(c, payload, sent == []));
  }

  lemma CarriedIsRecovered(c: Cipher, start: seq<byte>, taken: seq<byte>, sent: seq<seq<byte>>)
    requires Carried(c, start, taken, sent)
    ensures Recovered(c, start, taken, sent)
  {
    hide LoginStream, PeerReads, Carries, AllFitPadded;
    PeerRecoversSession(c, sent, true);
    assert taken[|start|..] == LoginStream(c, sent, true);
  }

  // ---- The client ----

  datatype State = Connected | Initialized | GGAuth | LoggedIn

  datatype Outcome = Done | Rejected | Panicked

  class Client {
    const conn: Conn
    const reader: Reader
    const writer: Writer
    const schedule: seq<byte> -> Cipher   // the Blowfish key schedule
    const staticKey: seq<byte>
    var state: State
    var crypt: Crypt
    var rsa: RSA
    var sessionId: u32
    var loginKeys: KeyPair   // LoginKey1 and LoginKey2
    var playKeys: KeyPair    // PlayKey1 and PlayKey2

    /** Constant, like the fields it speaks of. */
    ghost predicate Valid() {
      reader.Valid() && writer.Valid() && reader.conn == conn && writer.conn == conn && reader.buf != writer.buf
    }

    constructor (conn: Conn, schedule: seq<byte> -> Cipher, staticKey: seq<byte>)
      ensures Valid() && this.conn == conn && this.schedule == schedule && this.staticKey == staticKey
      ensures state == Connected && fresh(reader.buf) && fresh(writer.buf) && fresh(crypt)
    {
      this.conn, this.schedule, this.staticKey := conn, schedule, staticKey;
      reader := new Reader(conn);
      writer := new Writer(conn);
      // Nothing uses the two keys before the greeting has replaced them.
      crypt := new Crypt(schedule(staticKey));
      rsa := new RSA([]);
      state, sessionId := Connected, 0;
      loginKeys, playKeys := KeyPair(0, 0), KeyPair(0, 0);
    }

    /** The first packet, decrypted under a fresh static cipher; Panicked when the XOR pass leaves the buffer. */
    method Greeting() returns (r: Outcome, plain: seq<byte>)
      requires Valid()
      modifies this`crypt, conn`incoming, reader.buf
      ensures match ReadFrame(old(conn.incoming))
              case Packet(wire, rest) => (
                && fresh(crypt) && Static() && conn.incoming == rest
                && (r == Panicked <==> |wire| == 8)
                && (r != Panicked ==> r == Done && plain == Opened(crypt.cipher, wire)))
              case _ => r == Rejected && crypt == old(crypt)
    {
      hide Deciphered, UnpassedWords, WordsOf, Stored;
      plain := [];
      var read := reader.Read();
      if read.Failed? { return Rejected, plain; }
      var data := read.data;
      ghost var wire := data.View();
      crypt := new Crypt(schedule(staticKey));
      var panics := crypt.DecryptInit(data);
      if panics { return Panicked, plain; }
      plain := data.arr[data.off..data.off + data.len];
      OpenedView(crypt.cipher, wire, plain);
      return Done, plain;
    }

    /** The cipher as it is before the greeting has brought its key. */
    ghost predicate Static()
      reads this, crypt
    {
      crypt.cipher == schedule(staticKey) && !crypt.updatedKey
    }

    /**
     * The greeting: it sets the session, the RSA key and the cipher of everything that follows. A greeting that is
     * refused leaves the static cipher behind.
     */
    method HandleInit() returns (r: Outcome)
      requires Valid()
      modifies this`state, this`crypt, this`rsa, this`sessionId, conn`incoming, reader.buf
      ensures old(state) != Connected ==> r == Rejected && conn.incoming == old(conn.incoming) && crypt == old(crypt)
      ensures r != Done ==> state == old(state) && rsa == old(rsa) && sessionId == old(sessionId)
      ensures old(state) == Connected ==>
        match ReadFrame(old(conn.incoming))
        case Packet(wire, rest) => (
          && conn.incoming == rest
          && if |wire| == 8 then r == Panicked && Static()
             else
               var d := DecodeInit(Opened(schedule(staticKey), wire));
               if d.Decoded? then r == Done && Started(d.init) else r == Rejected && Static())
        case _ => r == Rejected && crypt == old(crypt)
    {
      hide DecodeInit, Opened, Started;
      if state != Connected { return Rejected; }
      var plain;
      r, plain := Greeting();
      if r != Done { return; }
      var decoded := DecodeInit(plain);
      if decoded.Refused? { return Rejected; }
      Begin(decoded.init);
    }

    method Begin(init: Init)
      requires Valid() && !crypt.updatedKey
      modifies this`state, this`rsa, this`sessionId, crypt`cipher
      ensures Started(init)
    {
      sessionId := init.sessionId;
      rsa := new RSA(init.modulus);
      crypt.UpdateKey(schedule(init.blowfishKey));
      state := Initialized;
    }

    /** The session a greeting opens. */
    ghost predicate Started(init: Init)
      reads this, crypt
    {
      && state == Initialized && sessionId == init.sessionId
      && crypt.cipher == schedule(init.blowfishKey) && !crypt.updatedKey
      && rsa.n == Os2ip(Unscrambled(Fitted(init.modulus))) && rsa.e == 65537
    }

    /**
     * Encrypt grows the payload inside the writer's own buffer, so what Send frames is the ciphertext, though
     * nobody copied it there.
     */
    method Transmit(payload: Slice) returns (ok: bool)
      requires Valid()
      requires payload.Valid() && payload.arr == writer.buf && payload.off == HEADER_SIZE && payload.cap == ROOM
      requires PaddedLength(payload.len, !crypt.updatedKey) <= ROOM
      modifies crypt`updatedKey, writer.buf, conn`outgoing, conn`room
      ensures crypt.updatedKey && FitsPadded(old(payload.View()), old(!crypt.updatedKey))
      ensures var frame := LoginFrame(crypt.cipher, old(payload.View()), old(!crypt.updatedKey));
        conn.Out() == Pushed(old(conn.Out()), frame) && (ok <==> |frame| <= old(conn.room))
    {
      hide Padded, Enciphered, PaddedLength, Frame;
      var encrypted := crypt.Encrypt(payload);
      assert writer.buf[HEADER_SIZE..HEADER_SIZE + encrypted.len] == encrypted.View();
      ok := writer.Send(encrypted.len);
    }

    /** The response, decrypted where it was read; its first byte always exists. */
    method Receive() returns (r: Option<Slice>)
      requires Valid()
      modifies conn`incoming, reader.buf
      ensures conn.incoming == Remaining(old(conn.incoming))
      ensures var a := Answer(crypt.cipher, old(conn.incoming));
        && (r.Some? <==> a.Some?)
        && (r.Some? ==> r.value.Valid() && r.value.arr == reader.buf && r.value.View() == a.value)
    {
      hide Deciphered;
      var read := reader.Read();
      if read.Failed? { return None; }
      var ok := crypt.Decrypt(read.data);
      if !ok { return None; }
      return Some(read.data);
    }

    /** One request and its response, as its callers read it before the buffer is used again. */
    method Exchange(payload: Slice) returns (response: Option<seq<byte>>)
      requires Valid()
      requires payload.Valid() && payload.arr == writer.buf && payload.off == HEADER_SIZE && payload.cap == ROOM
      requires payload.len <= REQUEST_SIZE
      modifies crypt`updatedKey, writer.buf, reader.buf, conn
      ensures crypt.updatedKey
      ensures Exchanged(crypt.cipher, old(payload.View()), old(!crypt.updatedKey), old(conn.Out()), conn.Out(),
                        old(conn.incoming), conn.incoming, response)
    {
      hide LoginFrame, Answer, PaddedLength, Remaining;
      SmallFits(payload.len);
      var ok := Transmit(payload);
      if !ok { return None; }
      var data := Receive();
      if data.None? { return None; }
      return Some(data.value.arr[data.value.off..data.value.off + data.value.len]);
    }

    /** A fixed-size request: prepared, encoded and exchanged. */
    method Ask(p: LoginPacket) returns (response: Option<seq<byte>>)
      requires Valid()
      modifies crypt`updatedKey, writer.buf, reader.buf, conn
      ensures crypt.updatedKey
      ensures Exchanged(crypt.cipher, LoginPayload(p), old(!crypt.updatedKey), old(conn.Out()), conn.Out(),
                        old(conn.incoming), conn.incoming, response)
      ensures response.Some? ==> response.value != []
    {
      hide LoginFrame, LoginPayload, Answer, FitsPadded;
      var room := writer.Prepare(RequestSize(p));
      var payload := room.value;
      match p {
        case AuthGG(session) => EncodeAuthGGRequestTo(session, payload);
        case ServerList(k1, k2) => EncodeRequestServerListTo(k1, k2, payload);
        case ServerLogin(k1, k2, id) => EncodeRequestServerLoginTo(k1, k2, id, payload);
      }
      assert payload.View() == Written(payload, payload.len);
      response := Exchange(payload);
    }

    /** In the wrong state nothing happens; else one exchange, whose answer decides. */
    method SendAuthGG() returns (ok: bool, ghost response: Option<seq<byte>>)
      requires Valid()
      modifies this`state, crypt`updatedKey, writer.buf, reader.buf, conn
      ensures state == if ok then GGAuth else old(state)
      ensures if old(state) == Initialized then
          crypt.updatedKey &&
          Exchanged(crypt.cipher, LoginPayload(AuthGG(sessionId)), old(!crypt.updatedKey), old(conn.Out()), conn.Out(),
                    old(conn.incoming), conn.incoming, response)
        else response.None? && conn.Out() == old(conn.Out()) && conn.incoming == old(conn.incoming)
      ensures ok <==> response.Some? && response.value != [] && response.value[0] == 0x0b
    {
      hide LoginPayload, Exchanged;
      ok, response := false, None;
      if state == Initialized {
        var answer := Ask(AuthGG(sessionId));
        response := answer;
        ok := answer.Some? && answer.value[0] == OP_GG_AUTH_RESPONSE;
        if ok { state := GGAuth; }
      }
    }

    /** The credentials, encrypted twice: by RSA, then by the session cipher. */
    method AskLogin(account: seq<byte>, password: seq<byte>) returns (response: Option<seq<byte>>)
      requires Valid()
      modifies crypt`updatedKey, writer.buf, reader.buf, conn
      ensures crypt.updatedKey
      ensures Exchanged(crypt.cipher, LoginRequest(account, password, sessionId, rsa.n, rsa.e), old(!crypt.updatedKey),
                        old(conn.Out()), conn.Out(), old(conn.incoming), conn.incoming, response)
    {
      hide Exchanged, Credentials, Request, Rsa.Block, ModExp, Os2ip;
      var request := EncodeLoginRequest(account, password, sessionId, rsa);
      var room := writer.Prepare(|request| + 16);
      var payload := room.value.Upto(|request|);
      CopyInto(payload, request);
      response := Exchange(payload);
    }

    method Login(account: seq<byte>, password: seq<byte>)
      returns (v: Verdict, ghost response: Option<seq<byte>>)
      requires Valid()
      modifies this`state, this`loginKeys, crypt`updatedKey, writer.buf, reader.buf, conn
      ensures if old(state) == GGAuth || old(state) == Initialized then
          crypt.updatedKey &&
          Exchanged(crypt.cipher, LoginRequest(account, password, sessionId, rsa.n, rsa.e), old(!crypt.updatedKey),
                    old(conn.Out()), conn.Out(), old(conn.incoming), conn.incoming, response)
        else response.None? && conn.Out() == old(conn.Out()) && conn.incoming == old(conn.incoming)
      ensures v == KeysIn(response, 0x03, 0x01)
      ensures if v.Granted? then state == LoggedIn && loginKeys == v.keys
        else state == old(state) && loginKeys == old(loginKeys)
    {
      hide LoginRequest, Exchanged;
      v, response := NoAnswer, None;
      if state == GGAuth || state == Initialized {
        var answer := AskLogin(account, password);
        response := answer;
        v := KeysIn(answer, OP_LOGIN_SUCCESS, OP_LOGIN_FAIL);
        if v.Granted? { state, loginKeys := LoggedIn, v.keys; }
      }
    }

    /** The response goes on to a decoder that is not part of this model. */
    method FetchServerList() returns (list: Option<seq<byte>>, ghost response: Option<seq<byte>>)
      requires Valid()
      modifies crypt`updatedKey, writer.buf, reader.buf, conn
      ensures if state == LoggedIn then
          crypt.updatedKey &&
          Exchanged(crypt.cipher, LoginPayload(ServerList(loginKeys.first, loginKeys.second)), old(!crypt.updatedKey),
                    old(conn.Out()), conn.Out(), old(conn.incoming), conn.incoming, response)
        else response.None? && conn.Out() == old(conn.Out()) && conn.incoming == old(conn.incoming)
      ensures list == if response.Some? && response.value != [] && response.value[0] == 0x04 then response else None
    {
      hide LoginPayload, Exchanged;
      list, response := None, None;
      if state == LoggedIn {
        list := Ask(ServerList(loginKeys.first, loginKeys.second));
        response := list;
        if list.Some? && list.value[0] != OP_SERVER_LIST { list := None; }
      }
    }

    method SelectServer(serverId: byte) returns (v: Verdict, ghost response: Option<seq<byte>>)
      requires Valid()
      modifies this`playKeys, crypt`updatedKey, writer.buf, reader.buf, conn
      ensures if state == LoggedIn then
          crypt.updatedKey &&
          Exchanged(crypt.cipher, LoginPayload(ServerLogin(loginKeys.first, loginKeys.second, serverId)),
                    old(!crypt.updatedKey), old(conn.Out()), conn.Out(), old(conn.incoming), conn.incoming, response)
        else response.None? && conn.Out() == old(conn.Out()) && conn.incoming == old(conn.incoming)
      ensures v == KeysIn(response, 0x07, 0x06)
      ensures playKeys == if v.Granted? then v.keys else old(playKeys)
    {
      hide LoginPayload, Exchanged;
      v, response := NoAnswer, None;
      if state == LoggedIn {
        var answer := Ask(ServerLogin(loginKeys.first, loginKeys.second, serverId));
        response := answer;
        v := KeysIn(answer, OP_PLAY_SUCCESS, OP_PLAY_FAIL);
        if v.Granted? { playKeys := v.keys; }
      }
    }

    /** The login up to the server list: what the connection has taken is the stream of the three payloads. */
    method LoginPipeline(account: seq<byte>, password: seq<byte>) returns (ok: bool, ghost sent: seq<seq<byte>>)
      requires Valid() && state == Initialized && !crypt.updatedKey
      modifies this`state, this`loginKeys, crypt`updatedKey, writer.buf, reader.buf, conn
      ensures ok ==> crypt.updatedKey && state == LoggedIn
      ensures ok ==> sent == [
        LoginPayload(AuthGG(sessionId)),
        LoginRequest(account, password, sessionId, rsa.n, rsa.e),
        LoginPayload(ServerList(loginKeys.first, loginKeys.second))]
      ensures ok ==> Carried(crypt.cipher, old(conn.outgoing), conn.outgoing, sent)
    {
      hide LoginPayload, LoginRequest, Exchanged, Carried, KeysIn;
      ghost var start, p0, i0 := conn.outgoing, conn.Out(), conn.incoming;
      ok, sent := false, [];
      CarriedNothing(crypt.cipher, start);
      ghost var r;
      var granted;
      granted, r := SendAuthGG();
      if granted {
        ghost var first := LoginPayload(AuthGG(sessionId));
        CarriedMore(crypt.cipher, start, [], first, p0, conn.Out(), i0, conn.incoming, r);
        assert [] + [first] == [first];
        ghost var p1, i1 := conn.Out(), conn.incoming;
        var verdict;
        verdict, r := Login(account, password);
        if verdict.Granted? {
          GrantedByAnswer(r, OP_LOGIN_SUCCESS, OP_LOGIN_FAIL);
          ghost var second := LoginRequest(account, password, sessionId, rsa.n, rsa.e);
          CarriedMore(crypt.cipher, start, [first], second, p1, conn.Out(), i1, conn.incoming, r);
          assert [first] + [second] == [first, second];
          ghost var p2, i2 := conn.Out(), conn.incoming;
          var list;
          list, r := FetchServerList();
          if list.Some? {
            ghost var third := LoginPayload(ServerList(loginKeys.first, loginKeys.second));
            CarriedMore(crypt.cipher, start, [first, second], third, p2, conn.Out(), i2, conn.incoming, r);
            assert [first, second] + [third] == [first, second, third];
            ok, sent := true, [first, second, third];
          }
        }
      }
    }

    /** And on to the choice of a server, after which the login server has recovered every request. */
    method LoginAndSelect(account: seq<byte>, password: seq<byte>, serverId: byte)
      returns (ok: bool, ghost sent: seq<seq<byte>>)
      requires Valid() && state == Initialized && !crypt.updatedKey
      modifies this`state, this`loginKeys, this`playKeys, crypt`updatedKey, writer.buf, reader.buf, conn
      ensures ok ==> sent == [
        LoginPayload(AuthGG(sessionId)),
        LoginRequest(account, password, sessionId, rsa.n, rsa.e),
        LoginPayload(ServerList(loginKeys.first, loginKeys.second)),
        LoginPayload(ServerLogin(loginKeys.first, loginKeys.second, serverId))]
      ensures ok ==> Carried(crypt.cipher, old(conn.outgoing), conn.outgoing, sent)
      ensures ok ==> Recovered(crypt.cipher, old(conn.outgoing), conn.outgoing, sent)
    {
      hide LoginPayload, LoginRequest, Exchanged, Carried, Recovered, KeysIn;
      ghost var start := conn.outgoing;
      ok, sent := LoginPipeline(account, password);
      if ok {
        ghost var p, i := conn.Out(), conn.incoming;
        var verdict;
        ghost var r;
        verdict, r := SelectServer(serverId);
        ok := verdict.Granted?;
        if ok {
          GrantedByAnswer(r, OP_PLAY_SUCCESS, OP_PLAY_FAIL);
          ghost var last := LoginPayload(ServerLogin(loginKeys.first, loginKeys.second, serverId));
          CarriedMore(crypt.cipher, start, sent, last, p, conn.Out(), i, conn.incoming, r);
          sent := sent + [last];
          CarriedIsRecovered(crypt.cipher, start, conn.outgoing, sent);
        }
      }
    }
  }

  function RequestSize(p: LoginPacket): (n: nat)
    ensures n == |LoginPayload(p)| <= 25
  {
    match p
    case AuthGG(_) => 25
    case ServerList(_, _) => 9
    case ServerLogin(_, _, _) => 10
  }

  function LoginRequest(account: seq<byte>, password: seq<byte>, session: u32, n: nat, e: nat): (s: seq<byte>)
    ensures |s| == REQUEST_SIZE
  {
    Request(Rsa.Block(ModExp(Os2ip(Credentials(account, password, session)), e, n)))
  }

  lemma SmallFits(n: nat)
    requires n <= REQUEST_SIZE
    ensures PaddedLength(n, true) <= ROOM && PaddedLength(n, false) <= ROOM
  {
  }

  /** The buffer after DecryptInit. */
  lemma OpenedView(c: Cipher, wire: seq<byte>, plain: seq<byte>)
    requires |wire| == |plain| && |wire| != 8
    requires |wire| == 0 || |wire| % BLOCK != 0 ==> plain == wire
    requires |wire| % BLOCK == 0 && |wire| >= 16 ==> WordsOf(plain) == UnpassedWords(WordsOf(Deciphered(c, wire)))
    ensures plain == Opened(c, wire)
  {
    hide WordsOf, UnpassedWords, Stored, Deciphered;
    if |wire| % BLOCK == 0 {
      BlocksAreWords(|wire|);
      StoredWordsOf(plain);
    }
  }
}
