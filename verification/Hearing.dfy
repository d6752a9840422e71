/** What the bot makes of each packet the server serialises: the read loop's handlers from end to end. */
module Hearing {
  import opened Bytes
  import opened WordRuns
  import opened GameLoop
  import opened T = TargetRing
  import opened B = BotObject
  import S = ServerReader

  /** Everything a packet may change. */
  datatype Mind = Mind(flags: Flags, known: Known, vitals: Vitals)

  /** What Client.HandlePacket leaves behind. */
  function Heard(bot: Bot, m: Mind, data: seq<byte>, now: int): Mind {
    var l := Learn(bot, m.flags, m.known, data);
    Mind(if l.teleport then l.flags.(converged := true) else l.flags, l.known, Felt(m.vitals, bot.self, data, now))
  }

  // ---- The packets ----

  function Teleport(id: u32, x: int32, y: int32, z: int32, trailing: seq<byte>): seq<byte> {
    Stored([0x22], [id, ToU32(x), ToU32(y), ToU32(z)]) + trailing
  }

  /** Die, NpcInfo and Attack name an object right behind the opcode. */
  function Naming(opcode: byte, id: u32, trailing: seq<byte>): seq<byte> {
    Stored([opcode], [id]) + trailing
  }

  function CharInfo(before: seq<byte>, id: u32, trailing: seq<byte>): seq<byte>
    requires |before| == 17
  {
    Stored([0x31] + before, [id]) + trailing
  }

  /** Of the words of a MagicSkillUse only four are read: two that may name us, the skill and its reuse time. */
  function SkillUse(target: u32, caster: u32, a: u32, skill: u32, b: u32, c: u32, d: u32, reuse: int32,
                    trailing: seq<byte>): seq<byte> {
    Stored([0x48], [target, caster, a, skill, b, c, d, ToU32(reuse)]) + trailing
  }

  lemma FirstOf(opcode: byte, words: seq<u32>, trailing: seq<byte>)
    ensures var s := Stored([opcode], words) + trailing; |s| >= 1 && s[0] == opcode
  {
    StoredPrefix([opcode], words);
  }

  // ---- What comes of them ----

  /** A teleport moves the bot to its coordinates, has to be acknowledged, and makes the bot hold its position. */
  lemma TeleportIsHeard(bot: Bot, m: Mind, id: u32, x: int32, y: int32, z: int32, trailing: seq<byte>, now: int)
    ensures Heard(bot, m, Teleport(id, x, y, z, trailing), now)
      == Mind(m.flags.(pendingAppear := true, converged := true), m.known, m.vitals.(x := x, y := y, z := z))
  {
    hide Stored, Le32, ToU32, ToI32, S.WordsLie;
    var words, data := [id, ToU32(x), ToU32(y), ToU32(z)], Teleport(id, x, y, z, trailing);
    FirstOf(0x22, words, trailing);
    S.StoredWordsLie([0x22], words, trailing);
    WordRead(data, 1, words, 1);
    WordRead(data, 1, words, 2);
    WordRead(data, 1, words, 3);
  }

  lemma WordRead(data: seq<byte>, base: nat, words: seq<u32>, k: nat)
    requires S.WordsLie(data, base, words) && k < |words|
    ensures base + 4 * k + 4 <= |data| && Le32(data, base + 4 * k) == words[k]
  {
  }

  /** A death is ours or means nothing. */
  lemma DeathIsHeard(bot: Bot, m: Mind, id: u32, trailing: seq<byte>, now: int)
    ensures Heard(bot, m, Naming(0x00, id, trailing), now)
      == if id == bot.self then m.(flags := m.flags.(dead := true)) else m
  {
    hide Stored, Le32, S.WordsLie;
    FirstOf(0x00, [id], trailing);
    S.StoredWordsLie([0x00], [id], trailing);
    WordRead(Naming(0x00, id, trailing), 1, [id], 0);
  }

  /** An object that appears becomes a target, whether the server calls it an NPC or a character. */
  lemma ObjectsAreHeard(bot: Bot, m: Mind, before: seq<byte>, id: u32, trailing: seq<byte>, now: int)
    requires |before| == 17 && m.known.ring.next < 256
    ensures var after := m.(known := m.known.(ring := Add(m.known.ring, bot.self, id)));
      && Heard(bot, m, Naming(0x0c, id, trailing), now) == after
      && Heard(bot, m, CharInfo(before, id, trailing), now) == after
  {
    hide Stored, Le32, S.WordsLie, Add;
    FirstOf(0x0c, [id], trailing);
    S.StoredWordsLie([0x0c], [id], trailing);
    WordRead(Naming(0x0c, id, trailing), 1, [id], 0);
    var head := [0x31] + before;
    StoredPrefix(head, [id]);
    S.StoredWordsLie(head, [id], trailing);
    WordRead(CharInfo(before, id, trailing), 18, [id], 0);
    assert CharInfo(before, id, trailing)[0] == head[0];
  }

  /** Our own blow raises the signal. */
  lemma BlowIsHeard(bot: Bot, m: Mind, id: u32, trailing: seq<byte>, now: int)
    ensures Heard(bot, m, Naming(0x33, id, trailing), now)
      == if id == bot.self then m.(flags := m.flags.(signal := true)) else m
  {
    hide Stored, Le32, S.WordsLie;
    FirstOf(0x33, [id], trailing);
    S.StoredWordsLie([0x33], [id], trailing);
    WordRead(Naming(0x33, id, trailing), 1, [id], 0);
  }

  /**
   * A skill's broadcast raises the signal for the object named first, and starts the cooldown, in nanoseconds from
   * now, for the one named second. The client takes both places for its own id.
   */
  lemma SkillUseIsHeard(bot: Bot, m: Mind, target: u32, caster: u32, a: u32, skill: u32, b: u32, c: u32, d: u32,
                        reuse: int32, trailing: seq<byte>, now: int)
    ensures Heard(bot, m, SkillUse(target, caster, a, skill, b, c, d, reuse, trailing), now)
      == Mind(
        if target == bot.self then m.flags.(signal := true) else m.flags,
        m.known,
        if caster == bot.self && reuse > 0
          then m.vitals.(skillReady := m.vitals.skillReady[skill := now + 1_000_000 * reuse])
          else m.vitals)
  {
    hide Stored, Le32, ToU32, ToI32, S.WordsLie;
    var words := [target, caster, a, skill, b, c, d, ToU32(reuse)];
    var data := SkillUse(target, caster, a, skill, b, c, d, reuse, trailing);
    FirstOf(0x48, words, trailing);
    S.StoredWordsLie([0x48], words, trailing);
    WordRead(data, 1, words, 0);
    WordRead(data, 1, words, 1);
    WordRead(data, 1, words, 3);
    WordRead(data, 1, words, 7);
  }

  /** Our own status sets the mana to the last value sent, and the maximum if there is a positive one. */
  lemma StatusIsHeard(bot: Bot, m: Mind, id: u32, between: seq<byte>, list: seq<StatusUpdate.Attribute>, now: int)
    requires |between| == 5 && |list| < 0x100
    ensures
      var mp, maxMp := StatusUpdate.LastIn(list, 0x0b), StatusUpdate.LastIn(list, 0x0c);
      Heard(bot, m, StatusUpdate.Status(id, between, list), now)
        == if id != bot.self || mp.None? then m
           else m.(vitals := m.vitals.(
             mp := mp.value, maxMp := if maxMp.Some? && maxMp.value > 0 then maxMp.value else m.vitals.maxMp))
  {
    hide StatusUpdate.MpIn, StatusUpdate.Status, StatusUpdate.LastIn;
    StatusParts(bot.self, id, between, list);
    StatusUpdate.StatusRoundTrip(bot.self, between, list);
  }

  lemma StatusParts(self: u32, id: u32, between: seq<byte>, list: seq<StatusUpdate.Attribute>)
    requires |between| == 5 && |list| < 0x100
    ensures var data := StatusUpdate.Status(id, between, list);
      data != [] && data[0] == 0x18 && (id != self ==> !StatusUpdate.MpIn(data, self).ok)
  {
    hide Put32, Le32, StatusUpdate.LastOf, StatusUpdate.Held, StatusUpdate.Attributes;
    var data := StatusUpdate.Status(id, between, list);
    assert data[1..5] == Put32(id);
    Le32Stored(data, 1, id);
  }

  /** An item list replaces the inventory by its equippable items, unless it has none. */
  lemma ItemsAreHeard(bot: Bot, m: Mind, skipped: u32, items: seq<ItemList.Item>, trailing: seq<byte>, now: int)
    requires |items| < 0x1_0000_0000 && ItemList.AllValid(items)
    ensures var ids := ItemList.Equippable(items);
      Heard(bot, m, ItemList.Serialise(skipped, items) + trailing, now)
        == if ids == [] then m else m.(known := m.known.(items := ids))
  {
    ItemList.RoundTrip(skipped, items, trailing);
    ItemList.HeaderParts(skipped, items);
    hide Heard, ItemList.Extract, ItemList.Equippable, ItemList.Serialise, ItemList.SerialiseItems;
    var data := ItemList.Serialise(skipped, items) + trailing;
    assert data[0] == ItemList.Serialise(skipped, items)[0];
    ListIsHeard(bot, m, data, now);
  }

  lemma ListIsHeard(bot: Bot, m: Mind, data: seq<byte>, now: int)
    requires data != [] && data[0] == 0x11
    ensures var ids := ItemList.Extract(data);
      Heard(bot, m, data, now) == if ids == [] then m else m.(known := m.known.(items := ids))
  {
    hide ItemList.Extract;
  }

  /** A teleport without coordinates still sets both flags, and a short skill broadcast still raises the signal. */
  lemma ShortOnesAreHeard(bot: Bot, m: Mind, data: seq<byte>, now: int)
    ensures data != [] && data[0] == 0x22 && |data| < 17 ==>
      Heard(bot, m, data, now) == m.(flags := m.flags.(pendingAppear := true, converged := true))
    ensures data != [] && data[0] == 0x48 && |data| < 33 ==>
      Heard(bot, m, data, now)
        == if |data| >= 5 && Le32(data, 1) == bot.self then m.(flags := m.flags.(signal := true)) else m
  {
    hide Le32;
  }

  /** Every other packet, and every one too short to name its object, changes nothing. */
  lemma NothingElseIsHeard(bot: Bot, m: Mind, data: seq<byte>, now: int)
    requires
      || data == []
      || data[0] !in {0x22, 0x00, 0x18, 0x11, 0x0c, 0x31, 0x33, 0x48}
      || (|data| < 5 && data[0] in {0x00, 0x0c, 0x33, 0x48})
      || (|data| < 22 && data[0] == 0x31)
      || (|data| < 11 && data[0] in {0x11, 0x18})
      || (data[0] == 0x11 && data[1] != 2)
    ensures Heard(bot, m, data, now) == m
  {
    hide Le32, ItemList.Walk;
  }
}
