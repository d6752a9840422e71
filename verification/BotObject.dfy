/**
 * The handlers of the read loop on the client's own fields (internal/client/client.go:868-1010), held against what
 * the interleaved model says a packet teaches.
 */
module BotObject {
  import opened Bytes
  import opened GameLoop
  import opened T = TargetRing
  import opened StatusUpdate
  import opened Framing
  import opened Packets
  import opened RollingXor
  import opened PacketIO
  import G = GameClient

  class Client {
    const objectId: u32
    const targets: Targets
    var inventory: seq<u32>
    var pendingAppear: bool
    var converged: bool
    var dead: bool
    var attackChan: bool    // whether the channel of capacity one is full
    var x: int32
    var y: int32
    var z: int32
    var mp: int32
    var maxMp: int32
    var skillReady: map<u32, int>

    ghost predicate Valid()
      reads targets
    {
      WellFormed(objectId, targets.State())
    }

    ghost function FlagsNow(): Flags
      reads this
    {
      Flags(false, pendingAppear, converged, dead, attackChan)
    }

    ghost function KnownNow(): Known
      reads this, targets
    {
      Known(targets.State(), inventory)
    }

    constructor (objectId: u32)
      ensures Valid() && this.objectId == objectId && fresh(targets)
      ensures FlagsNow() == Flags(false, false, false, false, false) && KnownNow() == Known(EMPTY, [])
    {
      this.objectId := objectId;
      targets := new Targets();
      inventory, pendingAppear, converged, dead, attackChan := [], false, false, false, false;
      x, y, z, mp, maxMp, skillReady := 0, 0, 0, 0, 0, map[];
    }

    ghost function VitalsNow(): Vitals
      reads this
    {
      Vitals(x, y, z, mp, maxMp, skillReady)
    }

    /**
     * One packet at time now: what the interleaved model learns from it (for a teleport the second flag as well),
     * and the position, mana and cooldowns that model leaves open.
     */
    method HandlePacket(bot: Bot, data: seq<byte>, now: int)
      requires Valid() && bot.self == objectId
      modifies this, targets
      ensures Valid()
      ensures var l := Learn(bot, old(FlagsNow()), old(KnownNow()), data);
        && FlagsNow() == (if l.teleport then l.flags.(converged := true) else l.flags)
        && KnownNow() == l.known
      ensures VitalsNow() == Felt(old(VitalsNow()), objectId, data, now)
    {
      hide ItemList.Extract, Le32, AddTo, MpIn;
      if |data| != 0 {
        var op := data[0];
        if op == OP_TELEPORT {
          HandleTeleport(data);
        } else if op == OP_DIE {
          HandleDie(data);
        } else if op == OP_STATUS_UPDATE {
          HandleStatus(data);
        } else if op == ItemList.OP_ITEM_LIST {
          var items := ItemList.ExtractEquippableItems(data);
          if |items| > 0 { inventory := items; }
        } else if op == OP_NPC_INFO {
          if |data| >= 5 { AddTarget(Le32(data, 1)); }
        } else if op == OP_CHAR_INFO {
          if |data| >= 22 { AddTarget(Le32(data, 18)); }
        } else if op == OP_ATTACK || op == GameLoop.OP_MAGIC_SKILL_USE {
          HandleCombatBroadcast(data, now);
        }
      }
    }

    method AddTarget(id: u32)
      requires Valid()
      modifies targets
      ensures Valid() && KnownNow() == AddTo(old(KnownNow()), objectId, id)
    {
      hide Add;
      targets.AddTarget(objectId, id);
    }

    method HandleTeleport(data: seq<byte>)
      requires data != [] && data[0] == OP_TELEPORT
      modifies this`pendingAppear, this`converged, this`x, this`y, this`z
      ensures pendingAppear && converged
      ensures VitalsNow() == Felt(old(VitalsNow()), objectId, data, 0)
    {
      hide Le32;
      if |data| >= 17 {
        x := ToI32(Le32(data, 5));
        y := ToI32(Le32(data, 9));
        z := ToI32(Le32(data, 13));
      }
      pendingAppear := true;
      converged := true;
    }

    method HandleStatus(data: seq<byte>)
      requires data != [] && data[0] == OP_STATUS_UPDATE
      modifies this`mp, this`maxMp
      ensures VitalsNow() == Felt(old(VitalsNow()), objectId, data, 0)
    {
      hide MpIn;
      var r := ParseSelfMp(data, objectId);
      if r.ok {
        mp := r.mp;
        if r.maxMp > 0 { maxMp := r.maxMp; }
      }
    }

    method HandleDie(data: seq<byte>)
      modifies this`dead
      ensures dead <==> old(dead) || (|data| >= 5 && Le32(data, 1) == objectId)
    {
      if |data| >= 5 && Le32(data, 1) == objectId { dead := true; }
    }

    /** A full channel drops the signal; our own skill starts its cooldown. */
    method HandleCombatBroadcast(data: seq<byte>, now: int)
      requires data != [] && (data[0] == OP_ATTACK || data[0] == GameLoop.OP_MAGIC_SKILL_USE)
      modifies this`attackChan, this`skillReady
      ensures attackChan <==> old(attackChan) || (|data| >= 5 && Le32(data, 1) == objectId)
      ensures VitalsNow() == Felt(old(VitalsNow()), objectId, data, now)
    {
      hide Le32;
      if |data| >= 5 && Le32(data, 1) == objectId { attackChan := true; }
      if data[0] == OP_ATTACK { return; }
      var reuse := ParseOwnSkillReuse(data, objectId);
      if reuse.Reuse? && reuse.milliseconds > 0 {
        skillReady := skillReady[reuse.skillId := now + NANOSECONDS * reuse.milliseconds];
      }
    }

    method CanCast(skillId: u32, now: int) returns (ok: bool)
      ensures ok == MayCast(VitalsNow(), skillId, now)
    {
      if mp < MANA_COST { return false; }
      if skillId in skillReady && now < skillReady[skillId] { return false; }
      return true;
    }

    /** Acknowledges a pending teleport, at most once per swap of the flag. */
    method AckTeleport(c: G.Client) returns (ok: bool)
      requires c.Valid() && c.gsCrypt.init
      modifies this`pendingAppear, c.gsConn`outgoing, c.gsConn`room, c.gsWriter.buf, c.gsCrypt.outKey
      ensures !pendingAppear && Fits(Payload(Appearing))
      ensures if old(pendingAppear) then
          && c.gsCrypt.Out() == Advance(old(c.gsCrypt.Out()), |Payload(Appearing)|)
          && c.gsConn.Out()
            == Pushed(old(c.gsConn.Out()), Frame(Encrypted(old(c.gsCrypt.Out()), Payload(Appearing))))
          && (ok <==> |Payload(Appearing)| + HEADER_SIZE <= old(c.gsConn.room))
        else ok && c.gsConn.Out() == old(c.gsConn.Out()) && c.gsCrypt.Out() == old(c.gsCrypt.Out())
    {
      hide Payload, Frame, Encrypted, Advance, RollingXor.KeyOf;
      G.Client.PayloadFitsRoom(Appearing);
      var swapped := SwapPendingAppear();
      if !swapped { return true; }
      ok := c.SendPacket(Appearing);
    }

    /** CompareAndSwap(true, false) */
    method SwapPendingAppear() returns (swapped: bool)
      modifies this`pendingAppear
      ensures swapped == old(pendingAppear) && !pendingAppear
    {
      swapped := pendingAppear;
      pendingAppear := false;
    }
  }

  /** The interleaved model handles a packet as the object does, with a pause inside a teleport. */
  lemma HandleIsLearnThenConverge(bot: Bot, s: State, data: seq<byte>)
    requires s.read == Reading
    ensures var l := Learn(bot, s.flags, s.known, data);
      var t := Step(bot, Handle(bot, s, data), ReadResumes);
      && t.flags == (if l.teleport then l.flags.(converged := true) else l.flags)
      && t.known == l.known && t.read == Reading && t.action == s.action && t.out == s.out
  {
    hide ItemList.Extract, Le32, AddTo, IsSelf;
  }

  // ---- Position, mana and cooldowns ----

  datatype Vitals = Vitals(x: int32, y: int32, z: int32, mp: int32, maxMp: int32, skillReady: map<u32, int>)

  const MANA_COST: int := 15
  const NANOSECONDS: int := 1_000_000

  /** What a packet that arrives at time now changes. */
  function Felt(v: Vitals, self: u32, data: seq<byte>, now: int): Vitals {
    if data == [] then v
    else if data[0] == OP_TELEPORT then
      if |data| < 17 then v
      else v.(x := ToI32(Le32(data, 5)), y := ToI32(Le32(data, 9)), z := ToI32(Le32(data, 13)))
    else if data[0] == OP_STATUS_UPDATE then
      var r := MpIn(data, self);
      if !r.ok then v else v.(mp := r.mp, maxMp := if r.maxMp > 0 then r.maxMp else v.maxMp)
    else
      match ParseOwnSkillReuse(data, self)
      case Reuse(skill, milliseconds) =>
        if milliseconds > 0 then v.(skillReady := v.skillReady[skill := now + NANOSECONDS * milliseconds]) else v
      case NotOurs => v
  }

  predicate MayCast(v: Vitals, skillId: u32, now: int) {
    v.mp >= MANA_COST && (skillId in v.skillReady ==> now >= v.skillReady[skillId])
  }

  /** After our own cast the skill waits out its reuse time, then only mana decides; other skills are not affected. */
  lemma CooldownHolds(v: Vitals, self: u32, data: seq<byte>, start: int, skillId: u32, now: int)
    requires ParseOwnSkillReuse(data, self).Reuse? && ParseOwnSkillReuse(data, self).milliseconds > 0
    ensures var r := ParseOwnSkillReuse(data, self);
      MayCast(Felt(v, self, data, start), skillId, now) <==>
        if skillId == r.skillId then v.mp >= 15 && now >= start + 1_000_000 * r.milliseconds
        else v.mp >= 15 && (skillId in v.skillReady ==> now >= v.skillReady[skillId])
  {
    hide Le32;
  }
}
