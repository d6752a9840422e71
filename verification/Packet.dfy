/** internal/net/packet.go: the packet reader and writer over their reused buffers. */
module PacketIO {
  import opened Bytes
  import opened Slices
  import opened Framing

  /** The writing side of a connection: what it has taken, and how many bytes it will still take before it breaks. */
  datatype Pipe = Pipe(sent: seq<byte>, room: nat)

  /** A write that does not fit leaves part of its data, and a broken pipe. */
  function Pushed(p: Pipe, data: seq<byte>): Pipe {
    if |data| <= p.room then Pipe(p.sent + data, p.room - |data|) else Pipe(p.sent + data[..p.room], 0)
  }

  /** What was sent before stays; behind it comes as much of the data as there is room for, which is then used up. */
  lemma PushedBytes(p: Pipe, data: seq<byte>)
    ensures var after, n := Pushed(p, data), if |data| < p.room then |data| else p.room;
      && |after.sent| == |p.sent| + n && after.room + n == p.room
      && (forall i: nat :: i < |p.sent| ==> after.sent[i] == p.sent[i])
      && (forall i: nat :: i < n ==> after.sent[|p.sent| + i] == data[i])
  {
  }

  /** A TCP connection: the bytes that will still arrive before it closes, those handed to it, and its room for more. */
  class Conn {
    var incoming: seq<byte>
    var outgoing: seq<byte>
    var room: nat

    constructor (arriving: seq<byte>, room: nat)
      ensures incoming == arriving && Out() == Pipe([], room)
    {
      incoming, outgoing, this.room := arriving, [], room;
    }

    ghost function Out(): Pipe
      reads this`outgoing, this`room
    {
      Pipe(outgoing, room)
    }

    /** io.ReadFull into the first n bytes of a buffer. */
    method ReadFull(buf: array<byte>, n: nat) returns (ok: bool)
      requires n <= buf.Length
      modifies this`incoming, buf
      ensures ok <==> n <= |old(incoming)|
      ensures ok ==> buf[..n] == old(incoming)[..n] && incoming == old(incoming)[n..]
      ensures !ok ==> incoming == []
    {
      ok := n <= |incoming|;
      var k := if ok then n else |incoming|;
      forall i | 0 <= i < k { buf[i] := incoming[i]; }
      incoming := incoming[k..];
    }

    /** io.Writer: fails exactly when some of the data was not taken. */
    method Write(buf: array<byte>, n: nat) returns (ok: bool)
      requires n <= buf.Length
      modifies this`outgoing, this`room
      ensures Out() == Pushed(old(Out()), buf[..n])
      ensures ok <==> n <= old(room)
    {
      ok := n <= room;
      var sent := if ok then n else room;
      assert buf[..sent] == buf[..n][..sent];
      outgoing := outgoing + buf[..sent];
      room := room - sent;
    }
  }

  datatype Option<+T> = None | Some(value: T)

  datatype ReadError = StreamEnded | InvalidPacketSize
  datatype ReadOutcome = Ok(data: Slice) | Failed(error: ReadError)

  class Reader {
    const conn: Conn
    const buf: array<byte>

    ghost predicate Valid() {
      buf.Length == MAX_PACKET_SIZE
    }

    constructor (conn: Conn)
      ensures Valid() && this.conn == conn && fresh(buf)
    {
      this.conn := conn;
      buf := new byte[MAX_PACKET_SIZE](_ => 0);
    }

    method Read() returns (r: ReadOutcome)
      requires Valid()
      modifies conn`incoming, buf
      ensures match ReadFrame(old(conn.incoming))
              case Packet(payload, rest) =>
                r.Ok? && r.data.Valid() && r.data.arr == buf && r.data.View() == payload && conn.incoming == rest
              case Incomplete => r == Failed(StreamEnded) && conn.incoming == []
              case BadSize => r == Failed(InvalidPacketSize) && conn.incoming == old(conn.incoming)[HEADER_SIZE..]
    {
      ghost var stream := conn.incoming;
      var ok := conn.ReadFull(buf, HEADER_SIZE);
      if !ok { return Failed(StreamEnded); }
      var size := Le16(buf[..HEADER_SIZE], 0);
      assert size == Le16(stream, 0);
      if size < HEADER_SIZE { return Failed(InvalidPacketSize); }
      var payloadSize := size - HEADER_SIZE;
      if payloadSize > 0 {
        ok := conn.ReadFull(buf, payloadSize);
        if !ok { return Failed(StreamEnded); }
      }
      assert buf[0..payloadSize] == stream[HEADER_SIZE..size];
      r := Ok(Slice(buf, 0, payloadSize, MAX_PACKET_SIZE));
    }
  }

  class Writer {
    const conn: Conn
    const buf: array<byte>

    ghost predicate Valid() {
      buf.Length == MAX_PACKET_SIZE
    }

    constructor (conn: Conn)
      ensures Valid() && this.conn == conn && fresh(buf)
    {
      this.conn := conn;
      buf := new byte[MAX_PACKET_SIZE](_ => 0);
    }

    /** The payload area of the writer's own buffer; nil when the packet would be too large. */
    method Prepare(payloadLen: nat) returns (payload: Option<Slice>)
      requires Valid()
      ensures payload.None? <==> payloadLen + HEADER_SIZE > MAX_PACKET_SIZE
      ensures payload.Some? ==>
        payload.value == Slice(buf, HEADER_SIZE, payloadLen, MAX_PACKET_SIZE - HEADER_SIZE) && payload.value.Valid()
    {
      if payloadLen + HEADER_SIZE > MAX_PACKET_SIZE { return None; }
      return Some(Slice(buf, HEADER_SIZE, payloadLen, MAX_PACKET_SIZE - HEADER_SIZE));
    }

    /** Frames whatever the payload area holds: nothing is copied. */
    method Send(payloadLen: nat) returns (ok: bool)
      requires Valid() && payloadLen + HEADER_SIZE <= MAX_PACKET_SIZE
      modifies conn`outgoing, conn`room, buf
      ensures conn.Out() == Pushed(old(conn.Out()), Frame(old(buf[HEADER_SIZE..HEADER_SIZE + payloadLen])))
      ensures ok <==> payloadLen + HEADER_SIZE <= old(conn.room)
      ensures SameOutside(old(buf[..]), buf[..], 0, HEADER_SIZE)
    {
      var size := payloadLen + HEADER_SIZE;
      ghost var payload := buf[HEADER_SIZE..size];
      StoreUint16(buf, 0, size);
      ok := conn.Write(buf, size);
      assert buf[..size] == buf[0..2] + buf[HEADER_SIZE..size];
      assert buf[HEADER_SIZE..size] == payload;
      assert buf[..size] == Frame(payload);
    }

    /** The copying variant. */
    method Write(data: seq<byte>) returns (ok: bool)
      requires Valid()
      modifies conn`outgoing, conn`room, buf
      ensures ok <==> Fits(data) && |data| + HEADER_SIZE <= old(conn.room)
      ensures conn.Out() == if Fits(data) then Pushed(old(conn.Out()), Frame(data)) else old(conn.Out())
    {
      if |data| + HEADER_SIZE > MAX_PACKET_SIZE { return false; }
      forall i | 0 <= i < |data| { buf[HEADER_SIZE + i] := data[i]; }
      assert buf[HEADER_SIZE..HEADER_SIZE + |data|] == data;
      ok := Send(|data|);
    }
  }
}
