/** What the bot does, over whole runs: every packet of the log is one its situation calls for. */
module GameLoopActs {
  import opened Bytes
  import opened RollingXor
  import opened Framing
  import opened L = Link
  import opened Packets
  import opened T = TargetRing
  import opened GameLoop
  import opened GameLoopSafety
  import opened GameLoopPhases

  // ---- What the server has said ----

  /** An NpcInfo or CharInfo packet of this object. */
  predicate Announces(data: seq<byte>, id: u32) {
    || (|data| >= 5 && data[0] == 0x0c && Le32(data, 1) == id)
    || (|data| >= 22 && data[0] == 0x31 && Le32(data, 18) == id)
  }

  ghost predicate Announced(received: seq<seq<byte>>, id: u32) {
    exists k :: 0 <= k < |received| && Announces(received[k], id)
  }

  /** An item list with this item. */
  predicate Lists(data: seq<byte>, id: u32) {
    id in ItemList.Extract(data)
  }

  ghost predicate Listed(received: seq<seq<byte>>, id: u32) {
    exists k :: 0 <= k < |received| && Lists(received[k], id)
  }

  // ---- What a bot may send next ----

  predicate IsBlow(p: Packet) {
    p.Attack? || p.MagicSkillUse?
  }

  predicate EndsWithBlow(log: seq<Packet>) {
    log != [] && IsBlow(log[|log| - 1])
  }

  predicate EndsWithMove(log: seq<Packet>, x: int32, y: int32, z: int32) {
    log != [] && var m := log[|log| - 1]; m.MoveToLocation? && m.tx == x && m.ty == y && m.tz == z
  }

  predicate EndsWith(log: seq<Packet>, p: Packet) {
    log != [] && log[|log| - 1] == p
  }

  /**
   * A move stays on its level and is confirmed where it led; only announced objects are targeted, never the bot
   * itself; a blow hits what was targeted just before, and only mystics cast; loot is swept only after a blow; only
   * listed items are used.
   */
  ghost predicate May(bot: Bot, received: seq<seq<byte>>, log: seq<Packet>, p: Packet) {
    match p
    case MoveToLocation(_, _, tz, _, _, oz) => tz == oz
    case ValidatePosition(x, y, z, heading) => heading == 0 && EndsWithMove(log, x, y, z)
    case ActionUse(id, ctrl, shift) => (
      && !ctrl && !shift
      && (id == 12 || id == 13 || id == 16 || id == 17 || id == 24 || id == 31 || (id == 5 && EndsWithBlow(log))))
    case UseItem(id, ctrl) => !ctrl && Listed(received, id)
    case Action(id, _, _, _, b) => b == 0 && id != 0 && id != bot.self && Announced(received, id)
    case Attack(id, x, y, z, b) => b == 0 && EndsWith(log, Packet.Action(id, x, y, z, 0))
    case MagicSkillUse(id, ctrl, shift, _) =>
      bot.mystic && id == 1177 && !ctrl && !shift && log != [] && log[|log| - 1].Action?
    case Say2(text, channel) => |text| <= 124 && (channel == 0 || channel == 1 || channel == 8)
    case Appearing => true
    case Logout => true
    case _ => false
  }

  ghost predicate Explained(bot: Bot, received: seq<seq<byte>>, log: seq<Packet>) {
    forall i :: 0 <= i < |log| ==> May(bot, received, log[..i], log[i])
  }

  lemma ExplainedMore(bot: Bot, received: seq<seq<byte>>, log: seq<Packet>, p: Packet)
    requires Explained(bot, received, log) && May(bot, received, log, p)
    ensures Explained(bot, received, log + [p])
  {
    hide May;
    forall i | 0 <= i < |log + [p]| ensures May(bot, received, (log + [p])[..i], (log + [p])[i]) {
      assert (log + [p])[..i] == log[..i];
    }
  }

  lemma HeardMore(received: seq<seq<byte>>, data: seq<byte>, id: u32)
    ensures Announced(received, id) ==> Announced(received + [data], id)
    ensures Listed(received, id) ==> Listed(received + [data], id)
    ensures Announces(data, id) ==> Announced(received + [data], id)
    ensures Lists(data, id) ==> Listed(received + [data], id)
  {
    hide Announces, Lists;
    var more := received + [data];
    assert more[|received|] == data;
    if Announced(received, id) {
      var k :| 0 <= k < |received| && Announces(received[k], id);
      assert more[k] == received[k];
    }
    if Listed(received, id) {
      var k :| 0 <= k < |received| && Lists(received[k], id);
      assert more[k] == received[k];
    }
  }

  lemma MayStill(bot: Bot, received: seq<seq<byte>>, data: seq<byte>, log: seq<Packet>, p: Packet)
    requires May(bot, received, log, p)
    ensures May(bot, received + [data], log, p)
  {
    hide Announced, Listed;
    if p.UseItem? || p.Action? { HeardMore(received, data, p.objectId); }
  }

  lemma ExplainedStill(bot: Bot, received: seq<seq<byte>>, data: seq<byte>, log: seq<Packet>)
    requires Explained(bot, received, log)
    ensures Explained(bot, received + [data], log)
  {
    hide May;
    forall i | 0 <= i < |log| ensures May(bot, received + [data], log[..i], log[i]) {
      MayStill(bot, received, data, log[..i], log[i]);
    }
  }

  // ---- The invariant ----

  /** What the place in the loop says about the end of the log. */
  predicate Due(log: seq<Packet>, pc: Pc) {
    match pc
    case RoamSleep(x, y, z) => EndsWithMove(log, x, y, z)
    case Strike(_, target, x, y, z) => EndsWith(log, Packet.Action(target, x, y, z, 0))
    case DrainSignal(_) => EndsWithBlow(log)
    case AwaitSignal(_) => EndsWithBlow(log)
    case CombatTop(n) => n == 0 ==> EndsWithBlow(log)
    case _ => true
  }

  ghost predicate KnowsOnlyHeard(bot: Bot, received: seq<seq<byte>>, k: Known) {
    && WellFormed(bot.self, k.ring)
    && (forall id :: id in k.ring.npcs ==> Announced(received, id))
    && (forall id :: id in k.items ==> Listed(received, id))
  }

  ghost predicate ActsWell(bot: Bot, received: seq<seq<byte>>, log: seq<Packet>, a: Action) {
    match a
    case Running(pc) => Due(log, pc)
    case Sending(p, _, next) => p != Logout && May(bot, received, log, p) && Due(log + [p], next)
  }

  ghost predicate Acting(bot: Bot, s: State) {
    && KnowsOnlyHeard(bot, s.down.received, s.known)
    && Explained(bot, s.down.received, s.history.log)
    && ActsWell(bot, s.down.received, s.history.log, s.action)
  }

  lemma ThinkActs(bot: Bot, s: State, pc: Pc, c: Choice)
    requires Acting(bot, s) && s.action == Running(pc)
    ensures ActsWell(bot, s.down.received, s.history.log, Think(bot, s, pc, c).action)
  {
    hide Explained, Announced, Listed, FirstChoice, Fallback, Dispatch;
    if pc.Act? { DispatchActs(bot, s, pc.choice, c); }
  }

  lemma DispatchActs(bot: Bot, s: State, k: nat, c: Choice)
    requires Acting(bot, s) && s.action == Running(Act(k))
    ensures ActsWell(bot, s.down.received, s.history.log, Dispatch(s, k, c).action)
  {
    hide Explained, Announced, Listed;
  }

  lemma FilledMay(bot: Bot, received: seq<seq<byte>>, log: seq<Packet>, p: Packet, buf: seq<byte>, next: Pc)
    requires May(bot, received, log, p) && Due(log + [p], next)
    ensures var q := Filled(p, buf); May(bot, received, log, q) && Due(log + [q], next) && (q == Logout ==> p == Logout)
  {
    hide Announced, Listed;
  }

  lemma SendActs(bot: Bot, s: State, c: Choice)
    requires Acting(bot, s) && s.action.Sending?
    ensures var a := s.action; Acting(bot, SendStep(s, a.packet, a.stage, a.next, c))
  {
    hide Explained, May, Due, KnowsOnlyHeard, Encode, Encipher, Write, Written, Payload, Filled;
    var p, received, log := s.action.packet, s.down.received, s.history.log;
    FilledMay(bot, received, log, p, s.out.buf, s.action.next);
    ExplainedMore(bot, received, log, p);
    StoppedIsDue(log);
  }

  lemma StoppedIsDue(log: seq<Packet>)
    ensures Due(log, Stopped)
  {
  }

  lemma ActionActs(bot: Bot, s: State, c: Choice)
    requires Acting(bot, s)
    ensures Acting(bot, ActionStep(bot, s, c))
  {
    hide Explained, ActsWell, KnowsOnlyHeard, Think, SendStep;
    if s.action.Running? {
      ThinkFrame(bot, s, s.action.pc, c);
      ThinkActs(bot, s, s.action.pc, c);
    } else {
      SendActs(bot, s, c);
    }
  }

  /** What is learned from a packet has been heard in it. */
  lemma LearnsOnlyHeard(bot: Bot, received: seq<seq<byte>>, flags: Flags, known: Known, data: seq<byte>)
    requires KnowsOnlyHeard(bot, received, known)
    ensures KnowsOnlyHeard(bot, received + [data], Learn(bot, flags, known, data).known)
  {
    hide Announced, Listed, WellFormed, AddTo, Le32, ItemList.Extract;
    var after := Learn(bot, flags, known, data).known;
    if |data| >= 5 { AddToKeeps(bot, known, Le32(data, 1)); }
    if |data| >= 22 { AddToKeeps(bot, known, Le32(data, 18)); }
    forall id | id in after.ring.npcs ensures Announced(received + [data], id) {
      HeardMore(received, data, id);
      AddedTo(bot, known, if data != [] && data[0] == OP_NPC_INFO && |data| >= 5 then Le32(data, 1)
                          else if |data| >= 22 then Le32(data, 18) else 0, id);
    }
    forall id | id in after.items ensures Listed(received + [data], id) {
      HeardMore(received, data, id);
    }
  }

  lemma AddedTo(bot: Bot, known: Known, added: u32, id: u32)
    ensures var k := AddTo(known, bot.self, added);
      k.items == known.items && (id in k.ring.npcs ==> id in known.ring.npcs || id == added)
  {
  }

  lemma AddToKeeps(bot: Bot, known: Known, added: u32)
    requires WellFormed(bot.self, known.ring)
    ensures var k := AddTo(known, bot.self, added);
      k.items == known.items && WellFormed(bot.self, k.ring)
  {
    AddKeepsForm(known.ring, bot.self, added);
    hide WellFormed, Add;
    assert known.ring.next < CAPACITY by { CursorInside(bot, known.ring); }
  }

  lemma CursorInside(bot: Bot, r: Ring)
    requires WellFormed(bot.self, r)
    ensures r.next < CAPACITY
  {
  }

  /** One packet was taken, and learned from. */
  predicate Took(bot: Bot, s: State, t: State, data: seq<byte>) {
    t.down.received == s.down.received + [data] && t.known == Learn(bot, s.flags, s.known, data).known
  }

  lemma ReadLearns(bot: Bot, s: State)
    ensures var t := ReadStep(bot, s);
      || (t.down.received == s.down.received && t.known == s.known)
      || (exists data :: Took(bot, s, t, data))
  {
    hide Learn, Decrypted;
    if s.read == Reading && ReadFrame(s.down.wire).Packet? {
      var data := Decrypted(s.down.inKey, ReadFrame(s.down.wire).payload);
      assert Took(bot, s, ReadStep(bot, s), data);
    }
  }

  lemma ReadActs(bot: Bot, s: State)
    requires Acting(bot, s)
    ensures Acting(bot, ReadStep(bot, s))
  {
    hide ReadStep, Learn, Explained, KnowsOnlyHeard, May, Due;
    ReadLoopFrame(bot, s);
    ReadLearns(bot, s);
    var t := ReadStep(bot, s);
    if !(t.down.received == s.down.received && t.known == s.known) {
      var data :| Took(bot, s, t, data);
      LearnsOnlyHeard(bot, s.down.received, s.flags, s.known, data);
      ExplainedStill(bot, s.down.received, data, s.history.log);
      if s.action.Sending? { MayStill(bot, s.down.received, data, s.history.log, s.action.packet); }
    }
  }

  lemma MainActs(bot: Bot, s: State, ok: bool, cut: nat)
    requires Orderly(s) && Acting(bot, s)
    ensures Acting(bot, MainStep(s, ok, cut))
  {
    MainFrame(s, ok, cut);
    FinalLogGrows(s, ok, cut);
    hide MainStep, Explained, KnowsOnlyHeard;
    ExplainedMore(bot, s.down.received, s.history.log, Logout);
  }

  lemma StepActs(bot: Bot, s: State, e: Event)
    requires Orderly(s) && Acting(bot, s)
    ensures Acting(bot, Step(bot, s, e))
  {
    hide ActionStep, ReadStep, MainStep, Explained, KnowsOnlyHeard, ActsWell, Receive;
    match e {
      case ActionSteps(c) => ActionActs(bot, s, c);
      case ClientReads => ReadActs(bot, s);
      case MainSteps(ok, cut) => MainActs(bot, s, ok, cut);
      case _ =>
    }
  }

  lemma {:induction false} RunActs(bot: Bot, s: State, events: seq<Event>)
    requires Orderly(s) && Acting(bot, s)
    ensures Acting(bot, Run(bot, s, events))
    decreases events
  {
    if events != [] {
      hide Step, Acting, Orderly;
      OrderlyStep(bot, s, events[0]);
      StepActs(bot, s, events[0]);
      RunActs(bot, Step(bot, s, events[0]), events[1..]);
    }
  }

  /** In every run every packet that was sent is explained by those before it and by what the server has said. */
  lemma EveryPacketIsExplained(bot: Bot, buf: seq<byte>, up: Link, down: Link, events: seq<Event>)
    ensures var s := Run(bot, Initial(buf, up, down), events);
      Explained(bot, s.down.received, s.history.log)
  {
    hide Run, Explained;
    StartActs(bot, buf, up, down);
    RunActs(bot, Initial(buf, up, down), events);
  }

  lemma StartActs(bot: Bot, buf: seq<byte>, up: Link, down: Link)
    ensures Orderly(Initial(buf, up, down)) && Acting(bot, Initial(buf, up, down))
  {
  }

  // ---- What has been begun is finished ----

  /** A target is struck and a move confirmed by the very next packet, but for a Logout. */
  predicate Finished(log: seq<Packet>) {
    forall i :: 0 <= i < |log| - 1 ==> Follows(log[i], log[i + 1])
  }

  predicate Follows(p: Packet, q: Packet) {
    && (p.Action? ==> IsBlow(q) || q == Logout)
    && (p.MoveToLocation? ==> q.ValidatePosition? || q == Logout)
  }

  /** What the end of the log asks of the place in the loop. */
  predicate Owes(log: seq<Packet>, a: Action) {
    && (log != [] && log[|log| - 1].Action? ==>
      a == Running(Stopped) || (a.Running? && a.pc.Strike?) || (a.Sending? && IsBlow(a.packet)))
    && (log != [] && log[|log| - 1].MoveToLocation? ==>
      a == Running(Stopped) || (a.Running? && a.pc.RoamSleep?) || (a.Sending? && a.packet.ValidatePosition?))
    && (a.Sending? && a.packet.Action? ==> a.next.Strike?)
    && (a.Sending? && a.packet.MoveToLocation? ==> a.next.RoamSleep?)
  }

  predicate Finishing(s: State) {
    Finished(s.history.log) && Owes(s.history.log, s.action)
  }

  lemma FinishedMore(log: seq<Packet>, p: Packet)
    requires Finished(log) && (log != [] ==> Follows(log[|log| - 1], p))
    ensures Finished(log + [p])
  {
    hide Follows;
    var more := log + [p];
    forall i | 0 <= i < |more| - 1 ensures Follows(more[i], more[i + 1]) {
      if i < |log| - 1 { assert Follows(log[i], log[i + 1]); }
    }
  }

  lemma OwesFollows(log: seq<Packet>, a: Action)
    requires log != [] && a.Sending? && Owes(log, a)
    ensures Follows(log[|log| - 1], a.packet)
  {
  }

  lemma ThinkFinishes(bot: Bot, s: State, pc: Pc, c: Choice)
    requires Owes(s.history.log, Running(pc))
    ensures Owes(s.history.log, Think(bot, s, pc, c).action) || Think(bot, s, pc, c) == s
  {
    hide FirstChoice, Fallback;
  }

  lemma SendFinishes(s: State, c: Choice)
    requires Finishing(s) && s.action.Sending?
    ensures var a := s.action; Finishing(SendStep(s, a.packet, a.stage, a.next, c))
  {
    hide Finished, Follows, Encode, Encipher, Write, Written, Payload;
    var log, p := s.history.log, s.action.packet;
    if log != [] { OwesFollows(log, s.action); }
    FinishedMore(log, p);
  }

  lemma ActionFinishes(bot: Bot, s: State, c: Choice)
    requires Finishing(s)
    ensures Finishing(ActionStep(bot, s, c))
  {
    hide Finished, Owes, Think, SendStep;
    if s.action.Running? {
      ThinkFrame(bot, s, s.action.pc, c);
      ThinkFinishes(bot, s, s.action.pc, c);
    } else {
      SendFinishes(s, c);
    }
  }

  lemma MainFinishes(s: State, ok: bool, cut: nat)
    requires Orderly(s) && Finishing(s)
    ensures Finishing(MainStep(s, ok, cut))
  {
    MainFrame(s, ok, cut);
    FinalLogGrows(s, ok, cut);
    hide MainStep, Finished;
    FinishedMore(s.history.log, Logout);
  }

  lemma StepFinishes(bot: Bot, s: State, e: Event)
    requires Orderly(s) && Finishing(s)
    ensures Finishing(Step(bot, s, e))
  {
    hide ActionStep, ReadStep, MainStep, Finished, Owes, Receive, Transmit;
    match e {
      case ActionSteps(c) => ActionFinishes(bot, s, c);
      case ClientReads => ReadLoopFrame(bot, s);
      case MainSteps(ok, cut) => MainFinishes(s, ok, cut);
      case _ =>
    }
  }

  lemma {:induction false} RunFinishes(bot: Bot, s: State, events: seq<Event>)
    requires Orderly(s) && Finishing(s)
    ensures Finishing(Run(bot, s, events))
    decreases events
  {
    if events != [] {
      hide Step, Finishing, Orderly;
      OrderlyStep(bot, s, events[0]);
      StepFinishes(bot, s, events[0]);
      RunFinishes(bot, Step(bot, s, events[0]), events[1..]);
    }
  }

  /** In every run each target is struck and each move confirmed by the packet that follows, unless it is the Logout. */
  lemma WhatIsBegunIsFinished(bot: Bot, buf: seq<byte>, up: Link, down: Link, events: seq<Event>)
    ensures Finished(Run(bot, Initial(buf, up, down), events).history.log)
  {
    hide Run, Finished;
    StartActs(bot, buf, up, down);
    StartFinishes(buf, up, down);
    RunFinishes(bot, Initial(buf, up, down), events);
  }

  lemma StartFinishes(buf: seq<byte>, up: Link, down: Link)
    ensures Finishing(Initial(buf, up, down))
  {
  }

  // ---- How a decision is made ----

  /** What three undisturbed steps from the choice of an action come to. */
  function Decided(bot: Bot, s: State, dice: nat, override: bool, last: Choice): Action {
    var c := Choice(override, dice, Appearing);
    ActionStep(bot, ActionStep(bot, ActionStep(bot, s, c), c), last).action
  }

  /** The next action: what is sent if the choice of the packet fits, and the same place again if it does not. */
  function SendsIf(fits: bool, p: Packet, next: Resume, k: nat): Action {
    if fits then Sending(p, Fresh, next) else Running(Act(k))
  }

  /**
   * The whole table, for every bot and situation: dice 0 moves, 1 greets, 2 uses an item, 3 fights, 4 chats; a bot
   * that holds its position fights instead of moving, any other may be overridden to move; without items it greets
   * instead, without targets it moves instead; a fight has two to five rounds.
   */
  lemma DecisionTable(bot: Bot, s: State, dice: nat, override: bool, last: Choice)
    requires s.action == Running(Choose) && dice < 5
    ensures var a, p := Decided(bot, s, dice, override, last), last.packet;
      var holds := bot.stationary || s.flags.converged;
      var moved := !holds && dice != 0 && override;
      var wantsFight := !moved && (dice == 3 || (holds && dice == 0));
      if moved || (!holds && dice == 0) || (wantsFight && s.known.ring.npcs == []) then
        if p.MoveToLocation? && p.tz == p.oz then a == Sending(p, Fresh, RoamSleep(p.tx, p.ty, p.tz))
        else a == Running(Act(0))
      else if wantsFight then
        a == if last.dice < 4 then Running(CombatTop(2 + last.dice)) else Running(Act(3))
      else if dice == 1 || (dice == 2 && s.known.items == []) then
        a == SendsIf(p.ActionUse? && IsGreeting(p.actionId) && !p.ctrl && !p.shift, p, Top, 1)
      else if dice == 2 then
        a == SendsIf(p.UseItem? && p.objectId in s.known.items && !p.ctrl, p, Top, 2)
      else
        a == SendsIf(p.Say2? && |p.text| <= 124 && (p.chatType == 0 || p.chatType == 1 || p.chatType == 8), p, Top, 4)
  {
  }

  predicate IsGreeting(id: int32) {
    id == 12 || id == 13 || id == 16 || id == 17 || id == 24 || id == 31
  }

  /**
   * A pending teleport is acknowledged first, which lowers its flag; the delay ends in the check or, once cancelled,
   * may end the loop; the living choose, the dead taunt or rest.
   */
  lemma FlowBetweenActions(bot: Bot, s: State, c: Choice)
    ensures var t := Think(bot, s, Top, c);
      && !t.flags.pendingAppear
      && t.action == if s.flags.pendingAppear then Sending(Appearing, Fresh, Delay) else Running(Delay)
    ensures Think(bot, s, Delay, c).action ==
      if c.yes then Running(CheckDead) else if s.flags.cancelled then Running(Stopped) else s.action
    ensures Think(bot, s, CheckDead, c).action == Running(if s.flags.dead then Taunt else Choose)
    ensures !c.yes ==> Think(bot, s, Taunt, c).action == Running(Top)
    ensures c.yes && c.packet.Say2? && |c.packet.text| <= 124 && c.packet.chatType == 0 ==>
      Think(bot, s, Taunt, c).action == Sending(c.packet, Fresh, Top)
  {
    hide FirstChoice, Fallback, Dispatch;
  }

  /** The way ends in the confirmation of its end or, once cancelled, may end the loop. */
  lemma FlowOfTheWay(bot: Bot, s: State, c: Choice, x: int32, y: int32, z: int32)
    ensures Think(bot, s, RoamSleep(x, y, z), c).action ==
      if c.yes then Sending(ValidatePosition(x, y, z, 0), Fresh, Top)
      else if s.flags.cancelled then Running(Stopped) else s.action
  {
    hide FirstChoice, Fallback, Dispatch;
  }

  /** A round begins with the test for cancellation and targets any known object; a fight ends with the sweep. */
  lemma FlowOfRounds(bot: Bot, s: State, c: Choice, n: nat)
    ensures Think(bot, s, CombatTop(0), c).action == Sending(ActionUse(5, false, false), Fresh, Top)
    ensures Think(bot, s, CombatTop(n + 1), c).action ==
      Running(if s.flags.cancelled then Stopped else PickTarget(n + 1))
    ensures s.known.ring.npcs == [] ==> Think(bot, s, PickTarget(n), c).action == Running(Top)
    ensures c.packet.Action? && c.packet.objectId in s.known.ring.npcs && c.packet.actionByte == 0 ==>
      var p := c.packet;
      Think(bot, s, PickTarget(n), c).action == Sending(p, Fresh, Strike(n, p.objectId, p.x, p.y, p.z))
  {
    hide FirstChoice, Fallback, Dispatch;
  }

  /** The signal is drained before the wait, which ends by cancellation, by the signal, or by time. */
  lemma FlowOfTheWait(bot: Bot, s: State, c: Choice, n: nat)
    ensures var t := Think(bot, s, DrainSignal(n), c); t.action == Running(AwaitSignal(n)) && !t.flags.signal
    ensures var t := Think(bot, s, AwaitSignal(n + 1), c);
      && (c.dice == 0 && s.flags.cancelled ==> t.action == Running(Stopped))
      && (c.dice == 1 && s.flags.signal ==> t.action == Running(CombatTop(n)))
      && (c.dice >= 2 ==> t.action == Running(CombatTop(n)))
      && (c.dice == 1 ==> !t.flags.signal)
  {
    hide FirstChoice, Fallback, Dispatch;
  }

  /** A mystic whose spell is ready casts it; a fighter, or a mystic without it, hits what was targeted. */
  lemma StrikeTable(bot: Bot, s: State, c: Choice, n: nat, target: u32, x: int32, y: int32, z: int32)
    requires s.action == Running(Strike(n, target, x, y, z))
    ensures ActionStep(bot, s, c).action ==
      if bot.mystic && c.yes then Sending(MagicSkillUse(1177, false, false, [0, 0, 0]), Fresh, DrainSignal(n))
      else Sending(Attack(target, x, y, z, 0), Fresh, DrainSignal(n))
  {
  }

  // ---- The signal of a blow that landed ----

  /** A combat broadcast of our own: an Attack or a MagicSkillUse packet that names us at bytes 1 to 4. */
  predicate IsOwnBlow(bot: Bot, data: seq<byte>) {
    |data| >= 5 && (data[0] == 0x33 || data[0] == 0x48) && Le32(data, 1) == bot.self
  }

  lemma SignalComesFromBroadcast(bot: Bot, s: State, e: Event)
    requires !s.flags.signal && Step(bot, s, e).flags.signal
    ensures e.ClientReads? && exists data :: Took(bot, s, Step(bot, s, e), data) && IsOwnBlow(bot, data)
  {
    hide Transmit, Receive, Le32, AddTo, ItemList.Extract, Decrypted;
    match e {
      case ActionSteps(c) => ActionRaisesNothing(bot, s, c);
      case MainSteps(ok, cut) => MainFrame(s, ok, cut);
      case ClientReads =>
        if s.read == Reading && ReadFrame(s.down.wire).Packet? {
          BroadcastRead(bot, s, Decrypted(s.down.inKey, ReadFrame(s.down.wire).payload));
        }
      case _ =>
    }
  }

  lemma BroadcastRead(bot: Bot, s: State, data: seq<byte>)
    requires s.read == Reading && ReadFrame(s.down.wire).Packet?
    requires data == Decrypted(s.down.inKey, ReadFrame(s.down.wire).payload)
    ensures Took(bot, s, ReadStep(bot, s), data)
    ensures ReadStep(bot, s).flags.signal ==> s.flags.signal || IsOwnBlow(bot, data)
  {
    hide Decrypted, Le32, AddTo, ItemList.Extract;
  }

  lemma ActionRaisesNothing(bot: Bot, s: State, c: Choice)
    ensures ActionStep(bot, s, c).flags.signal ==> s.flags.signal
  {
    hide Encode, Encipher, Write, Written, Payload, Filled, FirstChoice, Fallback;
  }
}
