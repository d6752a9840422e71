/** Length-prefixed frames, as values (internal/net/packet.go). */
module Framing {
  import opened Bytes

  const MAX_PACKET_SIZE: nat := 65535
  const HEADER_SIZE: nat := 2

  /** A payload that fits one frame. */
  predicate Fits(payload: seq<byte>) {
    |payload| + HEADER_SIZE <= MAX_PACKET_SIZE
  }

  /** The header counts itself. */
  function Frame(payload: seq<byte>): (f: seq<byte>)
    requires Fits(payload)
    ensures |f| == |payload| + HEADER_SIZE
  {
    Put16(|payload| + HEADER_SIZE) + payload
  }

  /** At most 65533 bytes, behind a little-endian header that counts two more. */
  lemma FrameBytes(payload: seq<byte>)
    ensures Fits(payload) <==> |payload| <= 65533
    ensures Fits(payload) ==> Frame(payload) == [(|payload| + 2) % 256, (|payload| + 2) / 256] + payload
  {
  }

  datatype Reading =
    | Packet(payload: seq<byte>, rest: seq<byte>)
    | Incomplete               // the stream ends inside the frame
    | BadSize                  // the header announces less than itself

  function ReadFrame(stream: seq<byte>): Reading {
    if |stream| < HEADER_SIZE then Incomplete
    else
      var size := Le16(stream, 0);
      if size < HEADER_SIZE then BadSize
      else if |stream| < size then Incomplete
      else Packet(stream[HEADER_SIZE..size], stream[size..])
  }

  /** What was framed is read back, and exactly its own bytes are consumed. */
  lemma ReadFrameOfFrame(payload: seq<byte>, rest: seq<byte>)
    requires Fits(payload)
    ensures ReadFrame(Frame(payload) + rest) == Packet(payload, rest)
  {
    var size := |payload| + HEADER_SIZE;
    var stream := Frame(payload) + rest;
    assert stream[0] == Put16(size)[0] && stream[1] == Put16(size)[1];
    assert Le16(stream, 0) == size;
    assert stream[HEADER_SIZE..size] == payload && stream[size..] == rest;
  }

  /** A frame cut short is never mistaken for a packet, nor for a malformed one. */
  lemma FramePrefixIsIncomplete(payload: seq<byte>, n: nat)
    requires Fits(payload) && n < |Frame(payload)|
    ensures ReadFrame(Frame(payload)[..n]) == Incomplete
  {
    var size := |payload| + HEADER_SIZE;
    if n >= HEADER_SIZE {
      var cut := Frame(payload)[..n];
      assert cut[0] == Put16(size)[0] && cut[1] == Put16(size)[1];
      assert Le16(cut, 0) == size;
    }
  }
}
