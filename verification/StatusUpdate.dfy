/** Mana and skill reuse, as the read loop learns them (internal/net/protocol.go:823-865). */
module StatusUpdate {
  import opened Bytes
  import opened PacketIO

  const OP_STATUS_UPDATE: byte := 0x18
  const OP_MAGIC_SKILL_USE: byte := 0x48
  const FIRST: nat := 11
  const SIZE: nat := 5
  const MP: byte := 0x0B
  const MAX_MP: byte := 0x0C

  datatype SelfMp = SelfMp(mp: int32, maxMp: int32, ok: bool)

  /** The value of the last of the first n attributes that has this id. */
  function LastOf(data: seq<byte>, n: nat, id: byte): Option<int32>
    requires FIRST + SIZE * n <= |data|
  {
    if n == 0 then None
    else
      var p := FIRST + SIZE * (n - 1);
      if data[p] == id then Some(ToI32(Le32(data, p + 1))) else LastOf(data, n - 1, id)
  }

  /** The attributes a packet announces, as far as it holds them. */
  function Held(data: seq<byte>): (n: nat)
    requires |data| >= FIRST
    ensures FIRST + SIZE * n <= |data| && n <= data[10]
    ensures n < data[10] ==> |data| < FIRST + SIZE * (n + 1)
  {
    var room := (|data| - FIRST) / SIZE;
    if room < data[10] then room else data[10]
  }

  function OrZero(v: Option<int32>): int32 {
    match v
    case Some(value) => value
    case None => 0
  }

  predicate IsOwnStatus(data: seq<byte>, self: u32) {
    |data| >= FIRST && data[0] == OP_STATUS_UPDATE && Le32(data, 1) == self
  }

  function MpIn(data: seq<byte>, self: u32): SelfMp {
    if !IsOwnStatus(data, self) then SelfMp(0, 0, false)
    else
      var mp := LastOf(data, Held(data), MP);
      SelfMp(OrZero(mp), OrZero(LastOf(data, Held(data), MAX_MP)), mp.Some?)
  }

  method ParseSelfMp(data: seq<byte>, self: u32) returns (r: SelfMp)
    ensures r == MpIn(data, self)
  {
    hide Le32, Held;
    if |data| < 11 || data[0] != OP_STATUS_UPDATE { return SelfMp(0, 0, false); }
    if Le32(data, 1) != self { return SelfMp(0, 0, false); }
    var mp: int32, maxMp: int32, ok := 0, 0, false;
    var count: nat := data[10];
    var pos: nat := 11;
    var i: nat := 0;
    while i < count && pos + 5 <= |data|
      invariant i <= Held(data) && pos == FIRST + SIZE * i
      invariant mp == OrZero(LastOf(data, i, MP)) && ok == LastOf(data, i, MP).Some?
      invariant maxMp == OrZero(LastOf(data, i, MAX_MP))
    {
      var val := ToI32(Le32(data, pos + 1));
      if data[pos] == 0x0B {
        mp, ok := val, true;
      } else if data[pos] == 0x0C {
        maxMp := val;
      }
      pos := pos + 5;
      i := i + 1;
    }
    return SelfMp(mp, maxMp, ok);
  }

  // ---- The packet, and what comes back of it ----

  datatype Attribute = Attribute(id: byte, value: int32)

  function Attributes(list: seq<Attribute>): (s: seq<byte>)
    ensures |s| == SIZE * |list|
  {
    if list == [] then []
    else
      var a := list[|list| - 1];
      Attributes(list[..|list| - 1]) + ([a.id] + Put32(ToU32(a.value)))
  }

  function Status(self: u32, between: seq<byte>, list: seq<Attribute>): seq<byte>
    requires |between| == 5 && |list| < 0x100
  {
    [0x18] + Put32(self) + between + [|list|] + Attributes(list)
  }

  /** The value of the last attribute with this id. */
  function LastIn(list: seq<Attribute>, id: byte): Option<int32> {
    if list == [] then None
    else
      var a := list[|list| - 1];
      if a.id == id then Some(a.value) else LastIn(list[..|list| - 1], id)
  }

  lemma {:induction false} AttributeAt(list: seq<Attribute>, i: nat)
    requires i < |list|
    ensures Attributes(list)[SIZE * i..SIZE * i + SIZE] == [list[i].id] + Put32(ToU32(list[i].value))
    decreases |list|
  {
    hide Put32, ToU32;
    var n := |list| - 1;
    if i < n {
      AttributeAt(list[..n], i);
      assert Attributes(list)[SIZE * i..SIZE * i + SIZE] == Attributes(list[..n])[SIZE * i..SIZE * i + SIZE];
    }
  }

  /** An attribute where it lies in the packet. */
  lemma AttributeRead(data: seq<byte>, list: seq<Attribute>, i: nat)
    requires i < |list| && |data| == FIRST + SIZE * |list| && data[FIRST..] == Attributes(list)
    ensures var p := FIRST + SIZE * i;
      data[p] == list[i].id && ToI32(Le32(data, p + 1)) == list[i].value
  {
    hide Put32, Le32, ToU32, ToI32, Attributes;
    AttributeAt(list, i);
    var p := FIRST + SIZE * i;
    var word := Put32(ToU32(list[i].value));
    var part := Attributes(list)[SIZE * i..SIZE * i + SIZE];
    assert data[p] == data[FIRST..][SIZE * i] == part[0];
    forall k | 0 <= k < 4 ensures data[p + 1..p + 5][k] == word[k] {
      assert data[p + 1..p + 5][k] == data[FIRST..][SIZE * i + 1 + k] == part[1 + k];
    }
    assert data[p + 1..p + 1 + 4] == word;
    Le32Stored(data, p + 1, ToU32(list[i].value));
  }

  lemma {:induction false} LastOfIsLastIn(data: seq<byte>, list: seq<Attribute>, n: nat, id: byte)
    requires n <= |list| && |data| == FIRST + SIZE * |list| && data[FIRST..] == Attributes(list)
    ensures LastOf(data, n, id) == LastIn(list[..n], id)
  {
    hide Attributes, Le32, ToI32;
    if n > 0 {
      AttributeRead(data, list, n - 1);
      LastOfIsLastIn(data, list, n - 1, id);
      assert list[..n][..n - 1] == list[..n - 1];
    }
  }

  /** The last mana and the last maximum of any list of attributes come back, whatever else the list holds. */
  lemma StatusRoundTrip(self: u32, between: seq<byte>, list: seq<Attribute>)
    requires |between| == 5 && |list| < 0x100
    ensures MpIn(Status(self, between, list), self)
      == SelfMp(OrZero(LastIn(list, 0x0b)), OrZero(LastIn(list, 0x0c)), LastIn(list, 0x0b).Some?)
  {
    hide Put32, Le32, Attributes, LastOf, LastIn;
    var data := Status(self, between, list);
    assert data[1..5] == Put32(self);
    Le32Stored(data, 1, self);
    assert data[FIRST..] == Attributes(list) && data[10] == |list|;
    LastOfIsLastIn(data, list, |list|, MP);
    LastOfIsLastIn(data, list, |list|, MAX_MP);
    assert list[..|list|] == list;
  }

  // ---- Skill reuse ----

  datatype Reuse = NotOurs | Reuse(skillId: u32, milliseconds: int32)

  /** Unlike the combat signal, this looks for ourselves at bytes 5 to 8. */
  function ParseOwnSkillReuse(data: seq<byte>, self: u32): (r: Reuse)
    ensures r.Reuse? <==> |data| >= 33 && data[0] == OP_MAGIC_SKILL_USE && Le32(data, 5) == self
  {
    if |data| < 33 || data[0] != OP_MAGIC_SKILL_USE || Le32(data, 5) != self then NotOurs
    else Reuse(Le32(data, 13), ToI32(Le32(data, 29)))
  }
}
