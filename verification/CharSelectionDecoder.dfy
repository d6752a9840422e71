/**
 * DecodeCharSelectionInfo (internal/net/protocol.go:343-432), with its moving offset. Most of its reads
 * may fail without a word, leaving the field at zero and the offset where it was; the single bounds check
 * at the end of an entry still makes it accept exactly what the strict parser accepts.
 */
module CharSelectionDecoder {
  import opened Bytes
  import opened WideStrings
  import opened CharSelection

  /** The u32 closure: a read that does not fit yields 0 and does not move. */
  method ReadU32(data: seq<byte>, pos: nat) returns (v: u32, ok: bool, next: nat)
    ensures ok <==> pos + 4 <= |data|
    ensures ok ==> v == Le32(data, pos) && next == pos + 4
    ensures !ok ==> v == 0 && next == pos
  {
    if pos + 4 > |data| { return 0, false, pos; }
    return Le32(data, pos), true, pos + 4;
  }

  /** The readStr closure. */
  method ReadStr(data: seq<byte>, start: nat) returns (s: seq<byte>, ok: bool, pos: nat)
    ensures ok <==> FindNul(data, start).Terminated?
    ensures ok ==> var e := FindNul(data, start).end;
      start <= e <= |data| - 2 && s == LowBytes(data[start..e]) && pos == e + 2
  {
    pos := start;
    FindNulBounds(data, start);
    while pos + 1 < |data|
      invariant start <= pos && FindNul(data, start) == FindNul(data, pos)
      decreases |data| - pos
    {
      if data[pos] == 0 && data[pos + 1] == 0 {
        var b := data[start..pos];
        pos := pos + 2;
        var i := 0;
        s := [];
        while i + 1 < |b|
          invariant i == 2 * |s| <= |b| + 1 && |s| <= |b| / 2
          invariant forall k :: 0 <= k < |s| ==> s[k] == LowBytes(b)[k]
        {
          s := s + [b[i]];
          i := i + 2;
        }
        assert s == LowBytes(b);
        return s, true, pos;
      }
      pos := pos + 2;
    }
    return [], false, pos;
  }

  /** The field reads and skips behind an entry's account name. */
  method ReadBody(data: seq<byte>, start: nat, name: seq<byte>) returns (c: LobbyChar, pos: nat)
    ensures start + BODY_SIZE <= |data| ==> pos == start + BODY_SIZE
    ensures start + BODY_SIZE > |data| ==> pos > |data|
    ensures start + BODY_SIZE <= |data| ==> forall text :: LowBytes(text) == name ==>
      c == CharOf(text, data[start..start + BODY_SIZE])
  {
    pos := start + 28;
    var x, y, z, level, timer, class_, ok;
    x, ok, pos := ReadU32(data, pos);
    y, ok, pos := ReadU32(data, pos);
    z, ok, pos := ReadU32(data, pos);
    pos := pos + 40;
    level, ok, pos := ReadU32(data, pos);
    pos := pos + 25;
    var paperdoll: seq<u32>;
    paperdoll, pos := ReadPaperdoll(data, start, pos);
    pos := pos + 94;
    timer, ok, pos := ReadU32(data, pos);
    class_, ok, pos := ReadU32(data, pos);
    pos := pos + 68;
    c := LobbyChar(name, ToI32(x), ToI32(y), ToI32(z), ToI32(level), class_, ToI32(timer), paperdoll);
    if start + BODY_SIZE <= |data| {
      hide Word16, Le32, Paperdoll;
      BodyWord(data, start, AT_POSITION);
      BodyWord(data, start, AT_POSITION + 4);
      BodyWord(data, start, AT_POSITION + 8);
      BodyWord(data, start, AT_LEVEL);
      BodyWord(data, start, AT_DELETE_TIMER);
      BodyWord(data, start, AT_CLASS);
    }
  }

  lemma BodyWord(data: seq<byte>, start: nat, at: nat)
    requires start + BODY_SIZE <= |data| && at + 4 <= BODY_SIZE
    ensures Le32(data[start..start + BODY_SIZE], at) == Le32(data, start + at)
  {
    hide Word16;
  }

  /** The loop over the 33 slots. */
  method ReadPaperdoll(data: seq<byte>, start: nat, from: nat) returns (words: seq<u32>, pos: nat)
    requires if start + AT_PAPERDOLL <= |data| then from == start + AT_PAPERDOLL else from > |data|
    ensures pos >= from
    ensures start + AT_PAPERDOLL + 132 <= |data| && from == start + AT_PAPERDOLL ==> pos == from + 132
    ensures start + AT_PAPERDOLL + 132 > |data| ==> pos + 4 > |data|
    ensures start + BODY_SIZE <= |data| ==> words == Paperdoll(data[start..start + BODY_SIZE], PAPERDOLL_SLOTS)
  {
    pos := from;
    words := [];
    hide Le32;
    for s := 0 to PAPERDOLL_SLOTS
      invariant from <= pos && |words| == s
      invariant pos == from + 4 * s || pos + 4 > |data|
      invariant from == start + AT_PAPERDOLL && from + 4 * s <= |data| ==> pos == from + 4 * s
      invariant start + BODY_SIZE <= |data| ==> words == Paperdoll(data[start..start + BODY_SIZE], s)
    {
      var v, ok;
      v, ok, pos := ReadU32(data, pos);
      words := words + [v];
      if start + BODY_SIZE <= |data| { BodyWord(data, start, AT_PAPERDOLL + 4 * s); }
    }
  }

  /** The body of the decoder's loop. */
  method ReadEntry(data: seq<byte>, start: nat) returns (r: Result<Entry>)
    ensures r == ParseEntry(data, start)
  {
    hide CharOf, FindNul;
    var name, ok, id, account, c, pos;
    name, ok, pos := ReadStr(data, start);
    if !ok { return Err(TruncatedName); }
    id, ok, pos := ReadU32(data, pos);
    if !ok { return Err(TruncatedId); }
    account, ok, pos := ReadStr(data, pos);
    if !ok { return Err(TruncatedAccount); }
    c, pos := ReadBody(data, pos, name);
    if pos > |data| { return Err(TruncatedEntry); }
    return Ok(Entry(c, pos));
  }

  method DecodeCharSelectionInfo(data: seq<byte>) returns (r: Result<Info>)
    ensures r == Parse(data)
  {
    hide Le32, ParseEntries;
    if |data| < 5 { return Err(TooShort); }
    if data[0] != OP_CHAR_SELECTION_INFO { return Err(InvalidOpcode); }
    var count := Le32(data, 1);
    var list := ReadEntries(data, count);
    r := if list.Err? then Err(list.error) else Ok(Info(list.value, count));
  }

  /** The decoder's loop. */
  method ReadEntries(data: seq<byte>, count: nat) returns (r: Result<seq<LobbyChar>>)
    ensures r == ParseEntries(data, FIRST_ENTRY, count, [])
  {
    hide ParseEntries, ParseEntry;
    var pos: nat := 18;
    var characters: seq<LobbyChar> := [];
    for i := 0 to count
      invariant ParseEntries(data, FIRST_ENTRY, count, []) == ParseEntries(data, pos, count - i, characters)
    {
      ParseEntriesStep(data, pos, count - i, characters);
      var entry := ReadEntry(data, pos);
      if entry.Err? { return Err(entry.error); }
      characters := characters + [entry.value.character];
      pos := entry.value.next;
    }
    ParseEntriesEnd(data, pos, characters);
    return Ok(characters);
  }
}
