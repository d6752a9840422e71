/**
 * The character-selection packet: its grammar, a parser of that grammar, and a serialiser
 * (internal/net/protocol.go:327-432).
 */
module CharSelection {
  import opened Bytes
  import opened Sequences
  import opened WordRuns
  import opened WideStrings

  const OP_CHAR_SELECTION_INFO: byte := 0x09
  const FIRST_ENTRY: nat := 18
  const PAPERDOLL_SLOTS: nat := 33

  /** Everything behind an entry's account name: fields of interest at fixed offsets in 411 bytes. */
  const BODY_SIZE: nat := 411
  const AT_POSITION: nat := 28
  const AT_LEVEL: nat := 80
  const AT_PAPERDOLL: nat := 109
  const AT_DELETE_TIMER: nat := 335
  const AT_CLASS: nat := 339

  datatype LobbyChar = LobbyChar(name: seq<byte>, x: int32, y: int32, z: int32, level: int32,
                                 classId: u32, deleteTimer: int32, paperdoll: seq<u32>)

  datatype Info = Info(characters: seq<LobbyChar>, characterCount: u32)

  datatype Error = TooShort | InvalidOpcode | TruncatedName | TruncatedId | TruncatedAccount | TruncatedEntry

  datatype Result<+T> = Ok(value: T) | Err(error: Error)

  function Paperdoll(body: seq<byte>, n: nat): (words: seq<u32>)
    requires |body| == BODY_SIZE && n <= PAPERDOLL_SLOTS
    ensures |words| == n
  {
    if n == 0 then [] else Paperdoll(body, n - 1) + [Le32(body, AT_PAPERDOLL + 4 * (n - 1))]
  }

  function CharOf(name: seq<byte>, body: seq<byte>): LobbyChar
    requires |body| == BODY_SIZE
  {
    LobbyChar(LowBytes(name), ToI32(Le32(body, AT_POSITION)), ToI32(Le32(body, AT_POSITION + 4)),
              ToI32(Le32(body, AT_POSITION + 8)), ToI32(Le32(body, AT_LEVEL)), Le32(body, AT_CLASS),
              ToI32(Le32(body, AT_DELETE_TIMER)), Paperdoll(body, PAPERDOLL_SLOTS))
  }

  // ---- The strict parser: every field must be there ----

  datatype Entry = Entry(character: LobbyChar, next: nat)

  function ParseEntry(data: seq<byte>, pos: nat): (r: Result<Entry>)
    ensures r.Ok? ==> pos + 419 <= r.value.next <= |data|
  {
    FindNulBounds(data, pos);
    match FindNul(data, pos)
    case Unterminated => Err(TruncatedName)
    case Terminated(e) =>
      if e + 6 > |data| then Err(TruncatedId)
      else
        FindNulBounds(data, e + 6);
        match FindNul(data, e + 6)
        case Unterminated => Err(TruncatedAccount)
        case Terminated(f) =>
          if f + 2 + BODY_SIZE > |data| then Err(TruncatedEntry)
          else Ok(Entry(CharOf(data[pos..e], data[f + 2..f + 2 + BODY_SIZE]), f + 2 + BODY_SIZE))
  }

  lemma FindNulBounds(data: seq<byte>, pos: nat)
    ensures FindNul(data, pos).Terminated? ==> pos <= FindNul(data, pos).end <= |data| - 2
  {
    if FindNul(data, pos).Terminated? { FindNulExact(data, pos, FindNul(data, pos).end); }
  }

  function ParseEntries(data: seq<byte>, pos: nat, n: nat, done: seq<LobbyChar>): Result<seq<LobbyChar>>
    decreases n
  {
    if n == 0 then Ok(done)
    else
      var r := ParseEntry(data, pos);
      if r.Err? then Err(r.error)
      else ParseEntries(data, r.value.next, n - 1, done + [r.value.character])
  }

  lemma ParseEntriesStep(data: seq<byte>, pos: nat, n: nat, done: seq<LobbyChar>)
    requires n > 0
    ensures var e := ParseEntry(data, pos);
      ParseEntries(data, pos, n, done) ==
        if e.Err? then Err(e.error) else ParseEntries(data, e.value.next, n - 1, done + [e.value.character])
  {
    hide ParseEntry;
  }

  lemma ParseEntriesEnd(data: seq<byte>, pos: nat, done: seq<LobbyChar>)
    ensures ParseEntries(data, pos, 0, done) == Ok(done)
  {
  }

  function Parse(data: seq<byte>): Result<Info> {
    if |data| < 5 then Err(TooShort)
    else if data[0] != OP_CHAR_SELECTION_INFO then Err(InvalidOpcode)
    else
      var count := Le32(data, 1);
      var r := ParseEntries(data, FIRST_ENTRY, count, []);
      if r.Err? then Err(r.error) else Ok(Info(r.value, count))
  }

  // ---- Accepted means complete ----

  lemma {:induction false} EntriesComplete(data: seq<byte>, pos: nat, n: nat, done: seq<LobbyChar>)
    requires ParseEntries(data, pos, n, done).Ok?
    ensures |ParseEntries(data, pos, n, done).value| == |done| + n
    ensures n > 0 ==> pos + 419 * n <= |data|
    decreases n
  {
    if n > 0 {
      var r := ParseEntry(data, pos).value;
      EntriesComplete(data, r.next, n - 1, done + [r.character]);
    }
  }

  /** An accepted packet holds every announced character in full. */
  lemma AcceptedIsComplete(data: seq<byte>)
    requires Parse(data).Ok?
    ensures var info := Parse(data).value;
      && |info.characters| == info.characterCount == Le32(data, 1)
      && (info.characters != [] ==> 18 + 419 * |info.characters| <= |data|)
  {
    EntriesComplete(data, FIRST_ENTRY, Le32(data, 1), []);
  }

  // ---- The serialiser ----

  /** An entry on the wire: the parts the client reads and all it skips. */
  datatype Raw = Raw(name: seq<byte>, id: seq<byte>, account: seq<byte>, body: seq<byte>) {
    predicate Valid() {
      IsText(name) && |id| == 4 && IsText(account) && |body| == BODY_SIZE
    }
  }

  function SerialiseEntry(r: Raw): seq<byte> {
    r.name + [0, 0] + r.id + r.account + [0, 0] + r.body
  }

  function SerialiseEntries(rs: seq<Raw>): seq<byte> {
    if rs == [] then [] else SerialiseEntry(rs[0]) + SerialiseEntries(rs[1..])
  }

  ghost predicate AllValid(rs: seq<Raw>) {
    forall i :: 0 <= i < |rs| ==> rs[i].Valid()
  }

  function Chars(rs: seq<Raw>): (cs: seq<LobbyChar>)
    requires AllValid(rs)
    ensures |cs| == |rs|
  {
    if rs == [] then [] else [CharOf(rs[0].name, rs[0].body)] + Chars(rs[1..])
  }

  // ---- Parser and serialiser are inverse to each other ----

  /** Where the parts of a serialised entry lie. */
  lemma EntryParts(r: Raw)
    requires r.Valid()
    ensures IsText(r.name) && IsText(r.account) && |r.body| == BODY_SIZE
    ensures var s, n, a := SerialiseEntry(r), |r.name|, |r.account|;
      && |s| == n + a + 8 + BODY_SIZE
      && s[0..n] == r.name && s[n..n + 2] == [0, 0]
      && s[n + 6..n + 6 + a] == r.account && s[n + 6 + a..n + 8 + a] == [0, 0]
      && s[n + 8 + a..|s|] == r.body
  {
  }

  lemma PartsParse(data: seq<byte>, pos: nat, e: nat, f: nat, name: seq<byte>, account: seq<byte>)
    requires pos <= e && e + 6 <= f && f + 2 + BODY_SIZE <= |data|
    requires data[pos..e] == name && data[e + 6..f] == account && IsText(name) && IsText(account)
    requires data[e..e + 2] == [0, 0] && data[f..f + 2] == [0, 0]
    ensures ParseEntry(data, pos) == Ok(Entry(CharOf(name, data[f + 2..f + 2 + BODY_SIZE]), f + 2 + BODY_SIZE))
  {
    hide CharOf, IsText;
    assert data[e] == data[e..e + 2][0] && data[e + 1] == data[e..e + 2][1];
    assert data[f] == data[f..f + 2][0] && data[f + 1] == data[f..f + 2][1];
    FindNulExact(data, pos, e);
    FindNulExact(data, e + 6, f);
  }

  /** A serialised entry is parsed, wherever it lies. */
  lemma EntryParses(data: seq<byte>, pos: nat, r: Raw)
    requires r.Valid() && pos + |SerialiseEntry(r)| <= |data|
    requires data[pos..pos + |SerialiseEntry(r)|] == SerialiseEntry(r)
    ensures ParseEntry(data, pos) == Ok(Entry(CharOf(r.name, r.body), pos + |SerialiseEntry(r)|))
  {
    hide *;
    var s, n, a := SerialiseEntry(r), |r.name|, |r.account|;
    EntryParts(r);
    var e, f := pos + n, pos + n + 6 + a;
    PartAt(data, pos, s, 0, n);
    PartAt(data, pos, s, n + 6, n + 6 + a);
    PartAt(data, pos, s, n + 8 + a, |s|);
    PartAt(data, pos, s, n, n + 2);
    PartAt(data, pos, s, n + 6 + a, n + 8 + a);
    PartsParse(data, pos, e, f, r.name, r.account);
  }

  lemma {:induction false} EntriesParse(data: seq<byte>, pos: nat, rs: seq<Raw>, done: seq<LobbyChar>)
    requires AllValid(rs) && pos + |SerialiseEntries(rs)| <= |data|
    requires data[pos..pos + |SerialiseEntries(rs)|] == SerialiseEntries(rs)
    ensures ParseEntries(data, pos, |rs|, done) == Ok(done + Chars(rs))
    decreases |rs|
  {
    hide SerialiseEntry, ParseEntry, CharOf;
    if rs == [] {
      assert done + Chars(rs) == done;
    } else {
      var first, rest := SerialiseEntry(rs[0]), SerialiseEntries(rs[1..]);
      ConcatAt(data, pos, first, rest);
      EntryParses(data, pos, rs[0]);
      var c := CharOf(rs[0].name, rs[0].body);
      EntriesParse(data, pos + |first|, rs[1..], done + [c]);
      ConcatAssociates(done, [c], Chars(rs[1..]));
    }
  }

  lemma EntrySlices(data: seq<byte>, pos: nat, e: nat, f: nat, next: nat)
    requires pos <= e && e + 6 <= f && f + 2 <= next <= |data|
    requires data[e] == 0 && data[e + 1] == 0 && data[f] == 0 && data[f + 1] == 0
    ensures data[pos..next] ==
      SerialiseEntry(Raw(data[pos..e], data[e + 2..e + 6], data[e + 6..f], data[f + 2..next]))
  {
    SliceSplit(data, pos, e, e + 2);
    SliceSplit(data, pos, e + 2, e + 6);
    SliceSplit(data, pos, e + 6, f);
    SliceSplit(data, pos, f, f + 2);
    SliceSplit(data, pos, f + 2, next);
    ZeroPair(data, e);
    ZeroPair(data, f);
  }

  lemma ZeroPair(data: seq<byte>, p: nat)
    requires p + 2 <= |data| && data[p] == 0 && data[p + 1] == 0
    ensures data[p..p + 2] == [0, 0]
  {
  }

  /** What was parsed is a serialised entry. */
  lemma ParsedEntry(data: seq<byte>, pos: nat) returns (r: Raw)
    requires ParseEntry(data, pos).Ok?
    ensures r.Valid() && data[pos..ParseEntry(data, pos).value.next] == SerialiseEntry(r)
    ensures ParseEntry(data, pos).value.character == CharOf(r.name, r.body)
  {
    hide SerialiseEntry, CharOf, FindNul, IsText;
    var e := FindNul(data, pos).end;
    FindNulExact(data, pos, e);
    var f := FindNul(data, e + 6).end;
    FindNulExact(data, e + 6, f);
    var next := f + 2 + BODY_SIZE;
    EntrySlices(data, pos, e, f, next);
    r := Raw(data[pos..e], data[e + 2..e + 6], data[e + 6..f], data[f + 2..next]);
  }

  lemma EntriesCons(r: Raw, rest: seq<Raw>)
    requires r.Valid() && AllValid(rest)
    ensures AllValid([r] + rest)
    ensures SerialiseEntries([r] + rest) == SerialiseEntry(r) + SerialiseEntries(rest)
    ensures Chars([r] + rest) == [CharOf(r.name, r.body)] + Chars(rest)
  {
    hide SerialiseEntry, CharOf;
    assert ([r] + rest)[1..] == rest;
  }

  lemma {:induction false} ParsedEntries(data: seq<byte>, pos: nat, n: nat, done: seq<LobbyChar>)
    returns (rs: seq<Raw>, next: nat)
    requires ParseEntries(data, pos, n, done).Ok? && pos <= |data|
    ensures |rs| == n && AllValid(rs) && pos <= next <= |data| && data[pos..next] == SerialiseEntries(rs)
    ensures ParseEntries(data, pos, n, done).value == done + Chars(rs)
    decreases n
  {
    hide ParseEntries, ParseEntry, SerialiseEntry, SerialiseEntries, CharOf, Chars;
    if n == 0 {
      rs, next := [], pos;
      ParseEntriesEnd(data, pos, done);
      NoEntries();
      assert done + [] == done;
    } else {
      ParseEntriesStep(data, pos, n, done);
      var p := ParseEntry(data, pos).value;
      var r := ParsedEntry(data, pos);
      var rest;
      rest, next := ParsedEntries(data, p.next, n - 1, done + [p.character]);
      rs := [r] + rest;
      EntriesCons(r, rest);
      SliceSplit(data, pos, p.next, next);
      ConcatAssociates(done, [p.character], Chars(rest));
    }
  }

  lemma NoEntries()
    ensures SerialiseEntries([]) == [] && Chars([]) == []
  {
  }

  /** Opcode, count and thirteen bytes the client skips. */
  function Header(filler: seq<byte>, count: u32): (h: seq<byte>)
    requires |filler| == 13
    ensures |h| == FIRST_ENTRY
  {
    [0x09] + Put32(count) + filler
  }

  function Serialise(filler: seq<byte>, rs: seq<Raw>): seq<byte>
    requires |filler| == 13 && |rs| < 0x1_0000_0000
  {
    Header(filler, |rs|) + SerialiseEntries(rs)
  }

  lemma HeaderRead(data: seq<byte>, filler: seq<byte>, count: u32)
    requires |filler| == 13 && FIRST_ENTRY <= |data| && data[..FIRST_ENTRY] == Header(filler, count)
    ensures data[0] == OP_CHAR_SELECTION_INFO && Le32(data, 1) == count
  {
    hide Put32;
    var h := Header(filler, count);
    assert h[0] == data[0];
    assert data[1..5] == data[..FIRST_ENTRY][1..5] == h[1..5] == Put32(count);
    Le32Stored(data, 1, count);
  }

  lemma HeaderWritten(data: seq<byte>)
    requires |data| >= FIRST_ENTRY && data[0] == OP_CHAR_SELECTION_INFO
    ensures data[..FIRST_ENTRY] == Header(data[5..FIRST_ENTRY], Le32(data, 1))
  {
    Put32Le32(data, 1);
    hide Put32, Le32;
    SliceSplit(data, 0, 1, 5);
    SliceSplit(data, 0, 5, FIRST_ENTRY);
    assert data[0..1] == [OP_CHAR_SELECTION_INFO];
  }

  lemma SerialisedParses(data: seq<byte>, filler: seq<byte>, rs: seq<Raw>)
    requires |filler| == 13 && |rs| < 0x1_0000_0000 && AllValid(rs)
    requires FIRST_ENTRY + |SerialiseEntries(rs)| <= |data| && data[..FIRST_ENTRY] == Header(filler, |rs|)
    requires data[FIRST_ENTRY..FIRST_ENTRY + |SerialiseEntries(rs)|] == SerialiseEntries(rs)
    ensures Parse(data) == Ok(Info(Chars(rs), |rs|))
  {
    HeaderRead(data, filler, |rs|);
    EntriesParse(data, FIRST_ENTRY, rs, []);
    hide ParseEntries, SerialiseEntries, Header, Le32, Chars;
    assert [] + Chars(rs) == Chars(rs);
  }

  /** Round trip: every list of characters, with any text and any filler, is read back in order. */
  lemma RoundTrip(filler: seq<byte>, rs: seq<Raw>, trailing: seq<byte>)
    requires |filler| == 13 && |rs| < 0x1_0000_0000 && AllValid(rs)
    ensures Parse(Serialise(filler, rs) + trailing) == Ok(Info(Chars(rs), |rs|))
  {
    hide ParseEntries, SerialiseEntries, Header, Parse, Chars, Le32, Put32;
    var data := Serialise(filler, rs) + trailing;
    assert data[..FIRST_ENTRY] == Header(filler, |rs|);
    assert data[FIRST_ENTRY..FIRST_ENTRY + |SerialiseEntries(rs)|] == SerialiseEntries(rs);
    SerialisedParses(data, filler, rs);
  }

  /** And nothing else is accepted: a packet that announces characters is a serialised list, then anything. */
  lemma AcceptedIsSerialised(data: seq<byte>) returns (filler: seq<byte>, rs: seq<Raw>, trailing: seq<byte>)
    requires Parse(data).Ok? && Parse(data).value.characterCount > 0
    ensures |filler| == 13 && |rs| == Parse(data).value.characterCount && AllValid(rs)
    ensures data == Serialise(filler, rs) + trailing && Parse(data).value.characters == Chars(rs)
  {
    AcceptedIsComplete(data);
    var next;
    rs, next := ParsedEntries(data, FIRST_ENTRY, Le32(data, 1), []);
    HeaderWritten(data);
    filler, trailing := data[5..FIRST_ENTRY], data[next..];
    hide ParseEntries, SerialiseEntries, Header, Le32, Chars;
    assert [] + Chars(rs) == Chars(rs);
    SliceSplit(data, 0, FIRST_ENTRY, next);
    SliceSplit(data, 0, next, |data|);
  }

  // ---- The same, field by field ----

  /** What an entry carries between the fields the client reads. */
  datatype Filler = Filler(id: seq<byte>, account: seq<byte>, a: seq<byte>, b: seq<byte>, c: seq<byte>,
                           d: seq<byte>, e: seq<byte>) {
    predicate Valid() {
      |id| == 4 && IsText(account) && |a| == 28 && |b| == 40 && |c| == 25 && |d| == 94 && |e| == 68
    }
  }

  predicate Encodable(c: LobbyChar) {
    |c.paperdoll| == 33 && 0 !in c.name
  }

  function BodyOf(c: LobbyChar, f: Filler): seq<byte> {
    f.a + Put32(ToU32(c.x)) + Put32(ToU32(c.y)) + Put32(ToU32(c.z))
    + f.b + Put32(ToU32(c.level))
    + f.c + Stored([], c.paperdoll)
    + f.d + Put32(ToU32(c.deleteTimer)) + Put32(c.classId)
    + f.e
  }

  function RawOf(c: LobbyChar, f: Filler): Raw {
    Raw(Widen(c.name), f.id, f.account, BodyOf(c, f))
  }

  function RawsOf(cs: seq<LobbyChar>, fs: seq<Filler>): (rs: seq<Raw>)
    requires |cs| == |fs|
    ensures |rs| == |cs|
    decreases cs
  {
    if cs == [] then [] else [RawOf(cs[0], fs[0])] + RawsOf(cs[1..], fs[1..])
  }

  lemma {:induction false} PaperdollHolds(body: seq<byte>, words: seq<u32>, n: nat)
    requires |body| == BODY_SIZE && n <= |words| == PAPERDOLL_SLOTS
    requires forall i :: 0 <= i < 132 ==> body[AT_PAPERDOLL + i] == Stored([], words)[i]
    ensures Paperdoll(body, n) == words[..n]
  {
    hide Stored;
    if n > 0 {
      PaperdollHolds(body, words, n - 1);
      StoredWord(words, n - 1);
      WordAt(body, AT_PAPERDOLL + 4 * (n - 1), words[n - 1]);
    }
  }

  lemma BodyWords(c: LobbyChar, f: Filler)
    requires Encodable(c) && f.Valid()
    ensures var body := BodyOf(c, f);
      && |body| == BODY_SIZE
      && Le32(body, AT_POSITION) == ToU32(c.x) && Le32(body, AT_POSITION + 4) == ToU32(c.y)
      && Le32(body, AT_POSITION + 8) == ToU32(c.z) && Le32(body, AT_LEVEL) == ToU32(c.level)
      && Le32(body, AT_DELETE_TIMER) == ToU32(c.deleteTimer) && Le32(body, AT_CLASS) == c.classId
  {
    hide Put32, Stored, IsText, Le32, ToU32;
    var body := BodyOf(c, f);
    WordAt(body, AT_POSITION, ToU32(c.x));
    WordAt(body, AT_POSITION + 4, ToU32(c.y));
    WordAt(body, AT_POSITION + 8, ToU32(c.z));
    WordAt(body, AT_LEVEL, ToU32(c.level));
    WordAt(body, AT_DELETE_TIMER, ToU32(c.deleteTimer));
    WordAt(body, AT_CLASS, c.classId);
  }

  lemma BodyHolds(c: LobbyChar, f: Filler)
    requires Encodable(c) && f.Valid()
    ensures |BodyOf(c, f)| == BODY_SIZE && CharOf(Widen(c.name), BodyOf(c, f)) == c
  {
    WidenIsText(c.name);
    BodyWords(c, f);
    hide Put32, Stored, Widen, IsText, LowBytes, Le32, ToU32, ToI32;
    PaperdollHolds(BodyOf(c, f), c.paperdoll, PAPERDOLL_SLOTS);
  }

  lemma RawOfIsValid(c: LobbyChar, f: Filler)
    requires Encodable(c) && f.Valid()
    ensures var r := RawOf(c, f); r.Valid() && CharOf(r.name, r.body) == c
  {
    hide CharOf, Widen, BodyOf, IsText;
    BodyHolds(c, f);
    WidenIsText(c.name);
  }

  lemma {:induction false} CharsOfRaws(cs: seq<LobbyChar>, fs: seq<Filler>)
    requires |cs| == |fs| && (forall i :: 0 <= i < |cs| ==> Encodable(cs[i]) && fs[i].Valid())
    ensures AllValid(RawsOf(cs, fs)) && Chars(RawsOf(cs, fs)) == cs
    decreases cs
  {
    hide Encodable, CharOf, RawOf;
    if cs != [] {
      RawOfIsValid(cs[0], fs[0]);
      CharsOfRaws(cs[1..], fs[1..]);
      EntriesCons(RawOf(cs[0], fs[0]), RawsOf(cs[1..], fs[1..]));
    }
  }

  /**
   * Round trip, in the client's own terms: names without NUL, coordinates, levels, all 33 paperdoll slots,
   * delete timers and class ids of any number of characters come back in order, whatever lies between them.
   */
  lemma CharactersRoundTrip(filler: seq<byte>, cs: seq<LobbyChar>, fs: seq<Filler>, trailing: seq<byte>)
    requires |filler| == 13 && |cs| == |fs| < 0x1_0000_0000
    requires forall i :: 0 <= i < |cs| ==> Encodable(cs[i]) && fs[i].Valid()
    ensures Parse(Serialise(filler, RawsOf(cs, fs)) + trailing) == Ok(Info(cs, |cs|))
  {
    CharsOfRaws(cs, fs);
    RoundTrip(filler, RawsOf(cs, fs), trailing);
  }
}
