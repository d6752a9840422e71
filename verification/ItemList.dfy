/** The item-list walker ExtractEquippableItems (internal/net/protocol.go:753-821) and the grammar it walks. */
module ItemList {
  import opened Bytes
  import opened Sequences

  const OP_ITEM_LIST: byte := 0x11
  const FIRST_ITEM: nat := 10
  const FIXED: nat := 43
  const AT_TYPE2: nat := 18

  /** mask & (1 << k) != 0, for the five bits that matter. */
  predicate Bit(mask: byte, k: nat) {
    if k == 0 then mask % 2 == 1
    else if k == 1 then mask / 2 % 2 == 1
    else if k == 2 then mask / 4 % 2 == 1
    else if k == 3 then mask / 8 % 2 == 1
    else mask / 16 % 2 == 1
  }

  /** The blocks of fixed size a mask selects. */
  function BlockSize(mask: byte): nat {
    (if Bit(mask, 0) then 8 else 0) + (if Bit(mask, 1) then 16 else 0) +
    (if Bit(mask, 2) then 12 else 0) + (if Bit(mask, 3) then 4 else 0)
  }

  datatype Step = Stop | Next(pos: nat)

  /** Behind an array of words with its length byte at p. */
  function AfterArray(data: seq<byte>, p: nat): (next: nat)
    requires p < |data|
    ensures next > p
  {
    p + 1 + 4 * (data[p] as int)
  }

  /** Where the next record starts, or Stop when an array length lies beyond the packet. */
  function After(data: seq<byte>, pos: nat): (s: Step)
    requires pos + FIXED <= |data|
    ensures s.Next? ==> s.pos >= pos + FIXED
  {
    var p := pos + FIXED + BlockSize(data[pos]);
    if !Bit(data[pos], 4) then Next(p)
    else if p >= |data| then Stop
    else
      var q := AfterArray(data, p);
      if q >= |data| then Stop else Next(AfterArray(data, q))
  }

  function Taken(data: seq<byte>, pos: nat): (ids: seq<u32>)
    requires pos + FIXED <= |data|
    ensures |ids| <= 1
  {
    if data[pos + AT_TYPE2] <= 2 then [Le32(data, pos + 1)] else []
  }

  function Walk(data: seq<byte>, pos: nat, n: nat): seq<u32>
    decreases n
  {
    if n == 0 || pos + FIXED > |data| then []
    else
      match After(data, pos)
      case Stop => Taken(data, pos)
      case Next(p) => Taken(data, pos) + Walk(data, p, n - 1)
  }

  function Extract(data: seq<byte>): seq<u32> {
    if |data| < 11 || data[0] != OP_ITEM_LIST || data[1] != 2 then []
    else Walk(data, FIRST_ITEM, Le32(data, 6))
  }

  method ExtractEquippableItems(data: seq<byte>) returns (items: seq<u32>)
    ensures items == Extract(data)
    ensures |data| < 11 || data[0] != 0x11 || data[1] != 2 ==> items == []
  {
    items := [];
    if |data| < 11 || data[0] != OP_ITEM_LIST { return; }
    var sendType := data[1];
    var pos: nat := 2;
    var count: u32;
    if sendType == 2 {
      if pos + 8 > |data| { return; }
      pos := pos + 4;
      count := Le32(data, pos);
      pos := pos + 4;
    } else {
      return;
    }
    items := WalkItems(data, pos, count);
  }

  /** The walk with what has been collected so far, as the loop sees it. */
  function WalkOnto(data: seq<byte>, pos: nat, n: nat, items: seq<u32>): seq<u32>
    decreases n
  {
    if n == 0 || pos + FIXED > |data| then items
    else
      var more := if data[pos + AT_TYPE2] <= 2 then items + [Le32(data, pos + 1)] else items;
      match After(data, pos)
      case Stop => more
      case Next(p) => WalkOnto(data, p, n - 1, more)
  }

  lemma {:induction false} WalkOntoIs(data: seq<byte>, pos: nat, n: nat, items: seq<u32>)
    ensures WalkOnto(data, pos, n, items) == items + Walk(data, pos, n)
    decreases n
  {
    hide Le32, After;
    assert items + [] == items;
    if n > 0 && pos + FIXED <= |data| && After(data, pos).Next? {
      var p := After(data, pos).pos;
      WalkOntoIs(data, p, n - 1, items + Taken(data, pos));
      ConcatAssociates(items, Taken(data, pos), Walk(data, p, n - 1));
    }
  }

  /** The loop over the records. */
  method WalkItems(data: seq<byte>, start: nat, count: nat) returns (items: seq<u32>)
    ensures items == Walk(data, start, count)
  {
    hide Walk, After, Le32, Word16;
    items := [];
    WalkOntoIs(data, start, count, []);
    var pos: nat := start;
    for i := 0 to count
      invariant WalkOnto(data, start, count, []) == WalkOnto(data, pos, count - i, items)
    {
      if pos + 43 > |data| { break; }
      var objectId := Le32(data, pos + 1);
      var type2 := data[pos + 18];
      if type2 <= 2 { items := items + [objectId]; }
      var next := SkipItem(data, pos);
      if next.Stop? { break; }
      pos := next.pos;
    }
  }

  /** The part of the loop that moves the offset past one record. */
  method SkipItem(data: seq<byte>, start: nat) returns (s: Step)
    requires start + FIXED <= |data|
    ensures s == After(data, start)
  {
    hide Bit;
    var mask := data[start];
    var pos := start + 43;
    if Bit(mask, 0) { pos := pos + 8; }
    if Bit(mask, 1) { pos := pos + 16; }
    if Bit(mask, 2) { pos := pos + 12; }
    if Bit(mask, 3) { pos := pos + 4; }
    if Bit(mask, 4) {
      if pos >= |data| { return Stop; }
      var regSize: int := data[pos];
      pos := pos + 1 + regSize * 4;
      if pos >= |data| { return Stop; }
      var specSize: int := data[pos];
      pos := pos + 1 + specSize * 4;
    }
    return Next(pos);
  }

  // ---- On arbitrary bytes ----

  /** Every reported item has its 43 bytes in the packet. */
  lemma {:induction false} WalkFits(data: seq<byte>, pos: nat, n: nat)
    ensures Walk(data, pos, n) != [] ==> pos + FIXED * |Walk(data, pos, n)| <= |data|
    decreases n
  {
    if n > 0 && pos + FIXED <= |data| && After(data, pos).Next? {
      WalkFits(data, After(data, pos).pos, n - 1);
    }
  }

  /** Only item lists with their items in them yield any, and n of them take at least 10 + 43 n bytes. */
  lemma ItemsFit(data: seq<byte>)
    ensures Extract(data) != [] ==> 10 + 43 * |Extract(data)| <= |data| && data[0] == 0x11 && data[1] == 2
  {
    if |data| >= 11 { WalkFits(data, FIRST_ITEM, Le32(data, 6)); }
  }

  lemma StepOfPrefix(data: seq<byte>, m: nat, pos: nat)
    requires pos + FIXED <= m <= |data|
    ensures Taken(data[..m], pos) == Taken(data, pos)
    ensures After(data[..m], pos).Next? ==> After(data[..m], pos) == After(data, pos)
  {
    hide Word16, Bit;
  }

  /** Cutting the packet short removes items from the end and changes nothing else. */
  lemma {:induction false} WalkPrefix(data: seq<byte>, m: nat, pos: nat, n: nat)
    requires m <= |data|
    ensures Walk(data[..m], pos, n) <= Walk(data, pos, n)
    decreases n
  {
    hide Taken, After;
    if n > 0 && pos + FIXED <= m {
      StepOfPrefix(data, m, pos);
      if After(data[..m], pos).Next? {
        WalkPrefix(data, m, After(data, pos).pos, n - 1);
      }
    }
  }

  lemma TruncationIsPrefix(data: seq<byte>, m: nat)
    requires m <= |data|
    ensures Extract(data[..m]) <= Extract(data)
  {
    hide Walk, Word16;
    if m >= 11 {
      WalkPrefix(data, m, FIRST_ITEM, Le32(data, 6));
    }
  }

  // ---- The grammar ----

  /** A record: its fixed part, the blocks its mask selects, and for soul crystals two arrays of words. */
  datatype Item = Item(mask: byte, objectId: u32, a: seq<byte>, type2: byte, b: seq<byte>, blocks: seq<byte>,
                       regular: seq<byte>, special: seq<byte>) {
    predicate Valid() {
      && |a| == 13 && |b| == 24
      && |blocks| == 8 * (mask % 2) + 16 * (mask / 2 % 2) + 12 * (mask / 4 % 2) + 4 * (mask / 8 % 2)
      && |regular| % 4 == 0 && |regular| / 4 < 256 && |special| % 4 == 0 && |special| / 4 < 256
      && (!HasCrystals() ==> regular == [] && special == [])
    }

    predicate HasCrystals() {
      mask / 16 % 2 == 1
    }
  }

  lemma BlocksOfMask(mask: byte)
    ensures BlockSize(mask) == 8 * (mask % 2) + 16 * (mask / 2 % 2) + 12 * (mask / 4 % 2) + 4 * (mask / 8 % 2)
    ensures Bit(mask, 4) <==> mask / 16 % 2 == 1
  {
  }

  function Crystals(i: Item): seq<byte>
    requires i.Valid()
  {
    if i.HasCrystals() then [|i.regular| / 4] + i.regular + [|i.special| / 4] + i.special else []
  }

  function Fixed(i: Item): (s: seq<byte>)
    requires i.Valid()
    ensures |s| == FIXED
  {
    [i.mask] + Put32(i.objectId) + i.a + [i.type2] + i.b
  }

  function SerialiseItem(i: Item): seq<byte>
    requires i.Valid()
  {
    Fixed(i) + i.blocks + Crystals(i)
  }

  ghost predicate AllValid(items: seq<Item>) {
    forall k :: 0 <= k < |items| ==> items[k].Valid()
  }

  function SerialiseItems(items: seq<Item>): seq<byte>
    requires forall k :: 0 <= k < |items| ==> items[k].Valid()
  {
    if items == [] then [] else SerialiseItem(items[0]) + SerialiseItems(items[1..])
  }

  /** Weapons, armour and jewellery. */
  function Equippable(items: seq<Item>): seq<u32> {
    if items == [] then []
    else (if items[0].type2 <= 2 then [items[0].objectId] else []) + Equippable(items[1..])
  }

  /** A record is recognised wherever it lies, and skipped by exactly its own length. */
  lemma ItemWalked(data: seq<byte>, pos: nat, i: Item)
    requires i.Valid() && pos + |SerialiseItem(i)| <= |data|
    requires data[pos..pos + |SerialiseItem(i)|] == SerialiseItem(i)
    ensures After(data, pos) == Next(pos + |SerialiseItem(i)|)
    ensures Taken(data, pos) == if i.type2 <= 2 then [i.objectId] else []
  {
    hide SerialiseItem, Put32, Le32, Word16, Bit, BlockSize, After, Taken;
    var s := SerialiseItem(i);
    ItemParts(i);
    ByteAt(data, pos, s, 0);
    ByteAt(data, pos, s, AT_TYPE2);
    PartAt(data, pos, s, 1, 5);
    Le32Stored(data, pos + 1, i.objectId);
    TakenIs(data, pos, i);
    if Bit(i.mask, 4) {
      var p := FIXED + BlockSize(i.mask);
      var q := p + 1 + |i.regular|;
      ByteAt(data, pos, s, p);
      ByteAt(data, pos, s, q);
      AfterIs(data, pos, pos + p, pos + q);
    } else {
      AfterIs(data, pos, pos, pos);
    }
  }

  lemma ByteAt(data: seq<byte>, pos: nat, s: seq<byte>, i: nat)
    requires pos + |s| <= |data| && data[pos..pos + |s|] == s && i < |s|
    ensures data[pos + i] == s[i]
  {
    assert data[pos..pos + |s|][i] == data[pos + i];
  }

  lemma TakenIs(data: seq<byte>, pos: nat, i: Item)
    requires pos + FIXED <= |data| && data[pos + AT_TYPE2] == i.type2 && Le32(data, pos + 1) == i.objectId
    ensures Taken(data, pos) == if i.type2 <= 2 then [i.objectId] else []
  {
    hide Le32;
  }

  lemma AfterIs(data: seq<byte>, pos: nat, p: nat, q: nat)
    requires pos + FIXED <= |data|
    requires Bit(data[pos], 4) ==>
      p == pos + FIXED + BlockSize(data[pos]) && p < |data| && q == AfterArray(data, p) && q < |data|
    ensures After(data, pos) ==
      if Bit(data[pos], 4) then Next(AfterArray(data, q)) else Next(pos + FIXED + BlockSize(data[pos]))
  {
    hide Bit, BlockSize, AfterArray;
  }

  /** What lies where in a serialised record. */
  lemma ItemParts(i: Item)
    requires i.Valid()
    ensures var s := SerialiseItem(i);
      && |s| == FIXED + BlockSize(i.mask) + (if Bit(i.mask, 4) then 2 + |i.regular| + |i.special| else 0)
      && s[0] == i.mask && s[AT_TYPE2] == i.type2 && s[1..5] == Put32(i.objectId)
      && (Bit(i.mask, 4) ==>
        var p := FIXED + BlockSize(i.mask); var q := p + 1 + |i.regular|;
        4 * (s[p] as int) == |i.regular| && 4 * (s[q] as int) == |i.special|)
  {
    FixedParts(i);
    BlocksOfMask(i.mask);
    hide Bit, BlockSize, Fixed, Put32;
  }

  lemma FixedParts(i: Item)
    requires i.Valid()
    ensures Fixed(i)[0] == i.mask && Fixed(i)[1..5] == Put32(i.objectId) && Fixed(i)[AT_TYPE2] == i.type2
  {
    hide Put32;
  }

  lemma {:induction false} ItemsWalked(data: seq<byte>, pos: nat, items: seq<Item>)
    requires AllValid(items) && pos + |SerialiseItems(items)| <= |data|
    requires data[pos..pos + |SerialiseItems(items)|] == SerialiseItems(items)
    ensures Walk(data, pos, |items|) == Equippable(items)
    decreases |items|
  {
    hide SerialiseItem, After, Taken;
    if items != [] {
      var first, rest := SerialiseItem(items[0]), SerialiseItems(items[1..]);
      ConcatAt(data, pos, first, rest);
      ItemWalked(data, pos, items[0]);
      ItemsWalked(data, pos + |first|, items[1..]);
    }
  }

  function Serialise(skipped: u32, items: seq<Item>): seq<byte>
    requires |items| < 0x1_0000_0000 && forall k :: 0 <= k < |items| ==> items[k].Valid()
  {
    [0x11, 2] + Put32(skipped) + Put32(|items|) + SerialiseItems(items)
  }

  lemma HeaderParts(skipped: u32, items: seq<Item>)
    requires |items| < 0x1_0000_0000 && AllValid(items)
    ensures var s := Serialise(skipped, items);
      && |s| == FIRST_ITEM + |SerialiseItems(items)|
      && s[0] == OP_ITEM_LIST && s[1] == 2 && s[6..10] == Put32(|items|)
      && s[FIRST_ITEM..|s|] == SerialiseItems(items)
  {
    hide Put32, SerialiseItems;
  }

  /** Round trip: exactly the equippable object ids, in order, whatever the masks and arrays. */
  lemma RoundTrip(skipped: u32, items: seq<Item>, trailing: seq<byte>)
    requires |items| < 0x1_0000_0000 && AllValid(items)
    ensures Extract(Serialise(skipped, items) + trailing) == Equippable(items)
  {
    hide SerialiseItems, Serialise, Equippable, Put32, Extract, OP_ITEM_LIST;
    var s := Serialise(skipped, items);
    var data := s + trailing;
    HeaderParts(skipped, items);
    assert data[0..|s|] == s;
    ByteAt(data, 0, s, 0);
    ByteAt(data, 0, s, 1);
    PartAt(data, 0, s, 6, 10);
    PartAt(data, 0, s, FIRST_ITEM, |s|);
    ListWalked(data, items);
  }

  lemma ListWalked(data: seq<byte>, items: seq<Item>)
    requires |items| < 0x1_0000_0000 && AllValid(items) && FIRST_ITEM + |SerialiseItems(items)| <= |data|
    requires data[0] == OP_ITEM_LIST && data[1] == 2 && data[6..10] == Put32(|items|)
    requires data[FIRST_ITEM..FIRST_ITEM + |SerialiseItems(items)|] == SerialiseItems(items)
    ensures Extract(data) == Equippable(items)
  {
    hide SerialiseItems, Walk, Equippable, Put32, Le32, AllValid;
    Le32Stored(data, 6, |items|);
    ItemsWalked(data, FIRST_ITEM, items);
    if |data| < 11 { EmptyList(items); }
  }

  lemma EmptyList(items: seq<Item>)
    requires AllValid(items) && |SerialiseItems(items)| < FIXED
    ensures Equippable(items) == []
  {
    hide Fixed;
  }
}
