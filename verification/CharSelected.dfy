/**
 * DecodeCharSelected (internal/net/protocol.go:519-574). Its bounds check asks for 36 bytes behind the
 * title although it reads 40, so some truncated packets make it run off the end of the slice.
 */
module CharSelected {
  import opened Bytes
  import opened Sequences
  import opened WideStrings

  datatype Selected = Selected(objectId: u32, classId: u32, x: int32, y: int32, z: int32)

  datatype Outcome = Done(value: Selected) | TooShort | NotTerminated | Panics

  const CHECKED: nat := 36
  const READ: nat := 40

  /** The skipString closure. */
  method SkipString(data: seq<byte>, from: nat) returns (ok: bool, pos: nat)
    ensures ok <==> FindNul(data, from).Terminated?
    ensures ok ==> pos == FindNul(data, from).end + 2 && pos <= |data|
  {
    var i := from;
    while i < |data| - 1
      invariant FindNul(data, from) == FindNul(data, i)
      decreases |data| - i
    {
      if data[i] == 0 && data[i + 1] == 0 { return true, i + 2; }
      i := i + 2;
    }
    return false, from;
  }

  /** What the decoder finds in the 40 bytes behind the title. */
  function FieldsAt(data: seq<byte>, objectAt: nat, rest: nat): Selected
    requires objectAt + 4 <= |data| && rest + READ <= |data|
  {
    Selected(Le32(data, objectAt), Le32(data, rest + 20), ToI32(Le32(data, rest + 28)),
             ToI32(Le32(data, rest + 32)), ToI32(Le32(data, rest + 36)))
  }

  function Decode(data: seq<byte>): Outcome {
    if |data| < 1 then TooShort
    else
      match FindNul(data, 1)
      case Unterminated => NotTerminated
      case Terminated(e) =>
        if e + 6 > |data| then TooShort
        else
          match FindNul(data, e + 6)
          case Unterminated => NotTerminated
          case Terminated(f) =>
            if f + 2 + CHECKED > |data| then TooShort
            else if f + 2 + READ > |data| then Panics
            else Done(FieldsAt(data, e + 2, f + 2))
  }

  method DecodeCharSelected(data: seq<byte>) returns (r: Outcome)
    ensures r == Decode(data)
  {
    if |data| < 1 { return TooShort; }
    var ok, pos := SkipString(data, 1);
    if !ok { return NotTerminated; }
    if pos + 4 > |data| { return TooShort; }
    var objectId := Le32(data, pos);
    pos := pos + 4;
    ok, pos := SkipString(data, pos);
    if !ok { return NotTerminated; }
    if pos + 36 > |data| { return TooShort; }
    pos := pos + 20;
    var classId := Le32(data, pos);
    pos := pos + 8;
    var x := Le32(data, pos);
    pos := pos + 4;
    var y := Le32(data, pos);
    pos := pos + 4;
    if pos + 4 > |data| { return Panics; }
    var z := Le32(data, pos);
    return Done(Selected(objectId, classId, ToI32(x), ToI32(y), ToI32(z)));
  }

  // ---- The packet and its truncations ----

  datatype Raw = Raw(opcode: byte, name: seq<byte>, title: seq<byte>, a: seq<byte>, b: seq<byte>) {
    predicate Valid() {
      IsText(name) && IsText(title) && |a| == 20 && |b| == 4
    }
  }

  function Head(r: Raw, s: Selected): seq<byte> {
    [r.opcode] + r.name + [0, 0] + Put32(s.objectId)
  }

  function Fields(r: Raw, s: Selected): (f: seq<byte>)
    requires r.Valid()
    ensures |f| == READ
  {
    r.a + Put32(s.classId) + r.b + Put32(ToU32(s.x)) + Put32(ToU32(s.y)) + Put32(ToU32(s.z))
  }

  function Serialise(r: Raw, s: Selected): seq<byte>
    requires r.Valid()
  {
    Head(r, s) + r.title + [0, 0] + Fields(r, s)
  }

  /** Where the strings of a serialised packet end. */
  lemma Layout(r: Raw, s: Selected, data: seq<byte>)
    requires r.Valid() && Serialise(r, s) <= data
    ensures var e := 1 + |r.name|; var f := e + 6 + |r.title|;
      && EndsAt(data, 1, e) && EndsAt(data, e + 6, f) && |Serialise(r, s)| == f + 2 + READ
      && FieldsAt(data, e + 2, f + 2) == s
  {
    hide IsText, Put32, Le32, ToU32, ToI32;
    var e := 1 + |r.name|;
    var f := e + 6 + |r.title|;
    var whole := Serialise(r, s);
    assert data[..|whole|] == whole;
    assert data[1..e] == whole[1..e] == r.name;
    assert data[e + 6..f] == whole[e + 6..f] == r.title;
    FieldWords(r, s, data, e + 2, f + 2);
  }

  lemma FieldWords(r: Raw, s: Selected, data: seq<byte>, objectAt: nat, rest: nat)
    requires r.Valid() && objectAt + 4 <= rest && rest + READ <= |data|
    requires data[objectAt..objectAt + 4] == Put32(s.objectId) && data[rest..rest + READ] == Fields(r, s)
    ensures FieldsAt(data, objectAt, rest) == s
  {
    hide Le32, ToU32, ToI32, Fields;
    Le32Stored(data, objectAt, s.objectId);
    var fs := Fields(r, s);
    FieldParts(r, s);
    PartAt(data, rest, fs, 20, 24);
    PartAt(data, rest, fs, 28, 32);
    PartAt(data, rest, fs, 32, 36);
    PartAt(data, rest, fs, 36, 40);
    hide Put32;
    Le32Stored(data, rest + 20, s.classId);
    Le32Stored(data, rest + 28, ToU32(s.x));
    Le32Stored(data, rest + 32, ToU32(s.y));
    Le32Stored(data, rest + 36, ToU32(s.z));
  }

  lemma FieldParts(r: Raw, s: Selected)
    requires r.Valid()
    ensures var fs := Fields(r, s);
      && fs[20..24] == Put32(s.classId) && fs[28..32] == Put32(ToU32(s.x))
      && fs[32..36] == Put32(ToU32(s.y)) && fs[36..40] == Put32(ToU32(s.z))
  {
    hide Put32, ToU32, ToI32;
  }

  /** Round trip, whatever follows the packet. */
  lemma RoundTrip(r: Raw, s: Selected, trailing: seq<byte>)
    requires r.Valid()
    ensures Decode(Serialise(r, s) + trailing) == Done(s)
  {
    hide FieldsAt, FindNul, IsText, Head, Fields, EndsAt;
    var data := Serialise(r, s) + trailing;
    Layout(r, s, data);
    FindNulExact(data, 1, 1 + |r.name|);
    FindNulExact(data, 7 + |r.name|, 7 + |r.name| + |r.title|);
  }

  /** A scan of a shorter buffer finds the same terminator or none. */
  lemma {:induction false} FindNulTruncated(data: seq<byte>, n: nat, pos: nat)
    requires n <= |data|
    ensures FindNul(data[..n], pos) == FindNul(data, pos) || FindNul(data[..n], pos) == Unterminated
    ensures FindNul(data, pos).Terminated? ==>
      (FindNul(data[..n], pos).Terminated? <==> FindNul(data, pos).end + 2 <= n)
    decreases |data| - pos
  {
    if pos + 1 < n { FindNulTruncated(data, n, pos + 2); }
    if FindNul(data, pos).Terminated? { FindNulExact(data, pos, FindNul(data, pos).end); }
  }

  /** Exactly the cuts inside the last coordinate panic; every other cut is reported as an error. */
  lemma TruncationOutcome(r: Raw, s: Selected, n: nat)
    requires r.Valid() && n < |Serialise(r, s)|
    ensures Decode(Serialise(r, s)[..n]) == Panics <==> |Serialise(r, s)| - 4 <= n
    ensures !Decode(Serialise(r, s)[..n]).Done?
  {
    hide Serialise, FieldsAt, FindNul, EndsAt, Decode;
    var data := Serialise(r, s);
    Layout(r, s, data);
    var e := 1 + |r.name|;
    FindNulExact(data, 1, e);
    FindNulExact(data, e + 6, e + 6 + |r.title|);
    CutOutcome(data, n, e, e + 6 + |r.title|);
  }

  lemma CutOutcome(data: seq<byte>, n: nat, e: nat, f: nat)
    requires FindNul(data, 1) == Terminated(e) && FindNul(data, e + 6) == Terminated(f)
    requires n < |data| == f + 2 + READ && e + 6 <= f
    ensures Decode(data[..n]) == Panics <==> |data| - 4 <= n
    ensures !Decode(data[..n]).Done?
  {
    hide FindNul, FieldsAt;
    FindNulTruncated(data, n, 1);
    FindNulTruncated(data, n, e + 6);
  }

  /** The two strings of a packet end at e and f. */
  predicate StringsEnd(data: seq<byte>, e: nat, f: nat) {
    EndsAt(data, 1, e) && EndsAt(data, e + 6, f)
  }

  /**
   * On arbitrary bytes: the decoder leaves the packet exactly when both strings are terminated and 36 to 39 bytes
   * follow them. A packet of zeros does it.
   */
  lemma PanicsExactly(data: seq<byte>)
    ensures Decode(data) == Panics <==>
      exists e: nat, f: nat :: StringsEnd(data, e, f) && f + 2 + 36 <= |data| < f + 2 + 40
    ensures Decode(Zeros(45)) == Panics
  {
    hide FindNul, EndsAt;
    PanicsAt(data);
    FindNulExact(Zeros(45), 1, 1);
    FindNulExact(Zeros(45), 7, 7);
    ZerosEnd(45, 1);
    ZerosEnd(45, 7);
  }

  lemma ZerosEnd(n: nat, p: nat)
    requires p + 2 <= n
    ensures EndsAt(Zeros(n), p, p)
  {
  }

  lemma PanicsAt(data: seq<byte>)
    ensures Decode(data) == Panics <==>
      exists e: nat, f: nat :: StringsEnd(data, e, f) && f + 2 + 36 <= |data| < f + 2 + 40
  {
    hide FindNul, EndsAt, FieldsAt;
    if Decode(data) == Panics {
      var e := FindNul(data, 1).end;
      var f := FindNul(data, e + 6).end;
      FindNulExact(data, 1, e);
      FindNulExact(data, e + 6, f);
      assert StringsEnd(data, e, f);
    }
    forall e: nat, f: nat | StringsEnd(data, e, f) && f + 2 + 36 <= |data| < f + 2 + 40
      ensures Decode(data) == Panics
    {
      FindNulExact(data, 1, e);
      FindNulExact(data, e + 6, f);
      EndsInside(data, e + 6, f);
    }
  }

  lemma EndsInside(data: seq<byte>, pos: nat, end: nat)
    requires EndsAt(data, pos, end)
    ensures pos <= end <= |data| - 2
  {
  }
}
