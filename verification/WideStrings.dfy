/** NUL-terminated UTF-16LE strings inside a packet, as the decoders read them. */
module WideStrings {
  import opened Bytes

  datatype Scan = Unterminated | Terminated(end: nat)

  /** The first zero unit at an even distance from pos. */
  function FindNul(data: seq<byte>, pos: nat): Scan
    decreases |data| - pos
  {
    if pos + 1 >= |data| then Unterminated
    else if data[pos] == 0 && data[pos + 1] == 0 then Terminated(pos)
    else FindNul(data, pos + 2)
  }

  /** Whole units, none of them zero. */
  predicate IsText(s: seq<byte>) {
    |s| % 2 == 0 && forall i :: 0 <= i < |s| / 2 ==> NonZeroUnit(s, i)
  }

  predicate NonZeroUnit(s: seq<byte>, i: nat)
    requires 2 * i + 1 < |s|
  {
    s[2 * i] != 0 || s[2 * i + 1] != 0
  }

  /** What the decoders keep of a string: the low byte of every unit. */
  function LowBytes(s: seq<byte>): (t: seq<byte>)
    ensures |t| == |s| / 2
  {
    seq(|s| / 2, i requires 0 <= i < |s| / 2 => s[2 * i])
  }

  predicate EndsAt(data: seq<byte>, pos: nat, end: nat) {
    pos <= end && end + 2 <= |data| && data[end] == 0 && data[end + 1] == 0 && IsText(data[pos..end])
  }

  /** The scan finds the terminator of the text that starts at pos, and nothing else. */
  lemma {:induction false} FindNulExact(data: seq<byte>, pos: nat, end: nat)
    ensures FindNul(data, pos) == Terminated(end) <==> EndsAt(data, pos, end)
    decreases |data| - pos
  {
    if pos + 1 < |data| {
      if data[pos] != 0 || data[pos + 1] != 0 {
        FindNulExact(data, pos + 2, end);
      }
      if pos + 2 <= end <= |data| {
        TextCons(data[pos..end]);
        assert data[pos..end][2..] == data[pos + 2..end];
      }
    }
  }

  lemma TextCons(s: seq<byte>)
    requires |s| >= 2
    ensures IsText(s) <==> (s[0] != 0 || s[1] != 0) && IsText(s[2..])
  {
    var t := s[2..];
    assert (s[0] != 0 || s[1] != 0) <==> NonZeroUnit(s, 0);
    if (s[0] != 0 || s[1] != 0) && IsText(t) {
      forall i | 0 <= i < |s| / 2 ensures NonZeroUnit(s, i) {
        if i > 0 { assert NonZeroUnit(t, i - 1); }
      }
    }
    if IsText(s) {
      forall i | 0 <= i < |t| / 2 ensures NonZeroUnit(t, i) {
        assert NonZeroUnit(s, i + 1);
      }
    }
  }

  // ---- Byte strings ----

  /** A byte string as UTF-16LE, without its terminator. */
  function Widen(text: seq<byte>): (s: seq<byte>)
    ensures |s| == 2 * |text|
    ensures forall i :: 0 <= i < |text| ==> s[2 * i] == text[i] && s[2 * i + 1] == 0
  {
    if text == [] then [] else Widen(text[..|text| - 1]) + [text[|text| - 1], 0]
  }

  lemma WidenMore(text: seq<byte>, i: nat)
    requires i < |text|
    ensures Widen(text[..i + 1]) == Widen(text[..i]) + [text[i], 0]
  {
    assert text[..i + 1][..i] == text[..i];
  }

  lemma WidenIsText(name: seq<byte>)
    requires 0 !in name
    ensures IsText(Widen(name)) && LowBytes(Widen(name)) == name
  {
    forall i | 0 <= i < |name| ensures NonZeroUnit(Widen(name), i) {
      assert name[i] in name;
    }
  }
}
