/** The phases of a bot's life in the game loop: holding its position, and being dead. */
module GameLoopPhases {
  import opened Bytes
  import opened Framing
  import opened RollingXor
  import opened L = Link
  import opened Packets
  import opened GameLoop
  import opened GameLoopSafety
  import opened GameLoopDelivery

  // ---- Nothing is forgotten ----

  /** t can come after s: no flag is cleared but those the loop itself consumes, no target or packet is lost. */
  predicate Later(s: State, t: State) {
    && (s.flags.cancelled ==> t.flags.cancelled) && (s.flags.converged ==> t.flags.converged)
    && (s.flags.dead ==> t.flags.dead)
    && |s.known.ring.npcs| <= |t.known.ring.npcs| && (s.known.items != [] ==> t.known.items != [])
    && s.history.log <= t.history.log
  }

  lemma StepIsLater(bot: Bot, s: State, e: Event)
    ensures Later(s, Step(bot, s, e))
  {
    hide ActionStep, ReadStep, MainStep, Transmit, Receive;
    match e {
      case ActionSteps(c) => ActionFrame(bot, s, c); LogGrows(bot, s, c);
      case ClientReads => ReadLoopFrame(bot, s); KnowledgeGrows(bot, s);
      case MainSteps(ok, cut) => MainFrame(s, ok, cut); FinalLogGrows(s, ok, cut);
      case _ =>
    }
  }

  lemma LogGrows(bot: Bot, s: State, c: Choice)
    ensures var t := ActionStep(bot, s, c).history.log;
      t == s.history.log || (s.action.Sending? && s.action.stage.Enciphered? && t == s.history.log + [s.action.packet])
  {
    hide Think, Encode, Encipher, Write, Written, Payload, Filled;
    if s.action.Running? { ThinkFrame(bot, s, s.action.pc, c); }
  }

  lemma FinalLogGrows(s: State, ok: bool, cut: nat)
    ensures var t := MainStep(s, ok, cut).history.log; t == s.history.log || t == s.history.log + [Logout]
  {
    hide Encode, Encipher, Write, Written, Payload;
  }

  lemma KnowledgeGrows(bot: Bot, s: State)
    ensures var t := ReadStep(bot, s).known;
      |s.known.ring.npcs| <= |t.ring.npcs| && (s.known.items != [] ==> t.items != [])
  {
    hide L.Receive, RollingXor.Decrypted, ItemList.Extract, Le32, ReadFrame;
  }

  lemma {:induction false} RunIsLater(bot: Bot, s: State, events: seq<Event>)
    ensures Later(s, Run(bot, s, events))
    decreases events
  {
    if events != [] {
      hide Step;
      StepIsLater(bot, s, events[0]);
      RunIsLater(bot, Step(bot, s, events[0]), events[1..]);
    }
  }

  // ---- Holding the position ----

  /** A bot told to stay, or brought to the battle by a teleport, that has someone to fight. */
  predicate Engaged(bot: Bot, s: State) {
    (bot.stationary || s.flags.converged) && s.known.ring.npcs != []
  }

  /** The action loop has made up its mind to move, and has not sent the packet yet. */
  predicate Roams(a: Action) {
    match a
    case Running(pc) => pc == Chosen(0) || pc == Act(0)
    case Sending(p, _, _) => p.MoveToLocation?
  }

  function CountMoves(log: seq<Packet>): nat {
    if log == [] then 0 else CountMoves(log[..|log| - 1]) + (if log[|log| - 1].MoveToLocation? then 1 else 0)
  }

  lemma CountMovesMore(log: seq<Packet>, p: Packet)
    ensures CountMoves(log + [p]) == CountMoves(log) + if p.MoveToLocation? then 1 else 0
  {
    assert (log + [p])[..|log|] == log;
  }

  /** Moves made, and the one that may still be under way. */
  function Moves(s: State): nat {
    CountMoves(s.history.log) + if Roams(s.action) then 1 else 0
  }

  lemma EngagedThink(bot: Bot, s: State, pc: Pc, c: Choice)
    requires Engaged(bot, s) && s.action == Running(pc)
    ensures Roams(Think(bot, s, pc, c).action) ==> Roams(s.action)
  {
  }

  lemma EngagedSend(s: State, c: Choice)
    requires s.action.Sending?
    ensures var a := s.action; var t := SendStep(s, a.packet, a.stage, a.next, c); Moves(t) <= Moves(s)
  {
    hide CountMoves, Encode, Encipher, Write, Written, Payload;
    CountMovesMore(s.history.log, s.action.packet);
  }

  lemma EngagedAction(bot: Bot, s: State, c: Choice)
    requires Engaged(bot, s)
    ensures Moves(ActionStep(bot, s, c)) <= Moves(s)
  {
    hide CountMoves, Think, SendStep, Roams;
    if s.action.Running? {
      EngagedThink(bot, s, s.action.pc, c);
      ThinkFrame(bot, s, s.action.pc, c);
    } else {
      EngagedSend(s, c);
    }
  }

  lemma EngagedStep(bot: Bot, s: State, e: Event)
    requires Engaged(bot, s)
    ensures Engaged(bot, Step(bot, s, e)) && Moves(Step(bot, s, e)) <= Moves(s)
  {
    StepIsLater(bot, s, e);
    hide CountMoves, Roams, ActionStep, ReadStep, MainStep, Transmit, Receive;
    match e {
      case ActionSteps(c) => EngagedAction(bot, s, c);
      case ClientReads => ReadLoopFrame(bot, s);
      case MainSteps(ok, cut) =>
        MainFrame(s, ok, cut);
        FinalLogGrows(s, ok, cut);
        CountMovesMore(s.history.log, Logout);
      case _ =>
    }
  }

  /** An engaged bot sends no more than the one move it may already have decided on, in every continuation. */
  lemma {:induction false} EngagedBotStaysPut(bot: Bot, s: State, events: seq<Event>)
    requires Engaged(bot, s)
    ensures var t := Run(bot, s, events);
      Engaged(bot, t) && s.history.log <= t.history.log && Moves(t) <= Moves(s)
    decreases events
  {
    if events != [] {
      hide Step, Moves, Engaged;
      EngagedStep(bot, s, events[0]);
      StepIsLater(bot, s, events[0]);
      EngagedBotStaysPut(bot, Step(bot, s, events[0]), events[1..]);
    }
  }

  // Three steps of the action loop send a packet, or decide on a move.

  function Thrice(bot: Bot, s: State, c: Choice): State {
    ActionStep(bot, ActionStep(bot, ActionStep(bot, s, c), c), c)
  }

  lemma ThriceIsRun(bot: Bot, s: State, c: Choice)
    ensures var e := ActionSteps(c); Run(bot, s, [e, e, e]) == Thrice(bot, s, c)
  {
    hide ActionStep;
    var e := ActionSteps(c);
    var s1 := Step(bot, s, e);
    var s2 := Step(bot, s1, e);
    assert [e, e, e][1..] == [e, e] && [e, e][1..] == [e] && [e][1..] == [];
    assert Run(bot, s2, [e]) == Step(bot, s2, e) && Run(bot, s1, [e, e]) == Run(bot, s2, [e]);
  }

  /**
   * A send that nothing disturbs is one frame under the current key, as gsConn sees it from Client.SendPacket; the log
   * gains the packet.
   */
  lemma SendIsOneFrame(bot: Bot, s: State, c: Choice)
    requires s.action.Sending? && s.action.stage == Fresh && c.yes && Fits(Payload(Filled(s.action.packet, s.out.buf)))
    ensures var t, q, key := Thrice(bot, s, c), Filled(s.action.packet, s.out.buf), s.out.link.outKey;
      && t.history.log == s.history.log + [q] && t.action == Running(s.action.next) && t.out.failed == s.out.failed
      && t.out.link.wire == s.out.link.wire + Frame(Encrypted(key, Payload(q)))
      && t.out.link.outKey == Advance(key, |Payload(q)|)
      && t.flags == s.flags && t.known == s.known
  {
    hide Payload, Frame, Encrypted, Advance, Front, Overwritten, Filled;
    var q, key := Filled(s.action.packet, s.out.buf), s.out.link.outKey;
    FrontOverwritten(s.out.buf, Payload(q));
    var s1 := ActionStep(bot, s, c);
    assert s1 == s.(out := Encode(s.out, q), action := Sending(q, Encoded, s.action.next));
    FrontOverwritten(s1.out.buf, Encrypted(key, Payload(q)));
    var s2 := ActionStep(bot, s1, c);
    assert s2 == s1.(out := Encipher(s1.out, |Payload(q)|), action := Sending(q, Enciphered(key), s.action.next));
    assert Front(s2.out.buf, |Payload(q)|) == Encrypted(key, Payload(q));
  }

  /** Without targets even a stationary bot roams: six steps of the action loop, undisturbed, send the move. */
  lemma BotWithoutTargetsRoams(bot: Bot, s: State, move: Packet)
    requires s.action == Running(Choose) && s.known.ring.npcs == []
    requires move.MoveToLocation? && move.tz == move.oz
    ensures var e := ActionSteps(Choice(true, 3, move));
      Run(bot, s, [e, e, e] + [e, e, e]).history.log == s.history.log + [move]
  {
    var c := Choice(true, 3, move);
    var e := ActionSteps(c);
    var t := Thrice(bot, s, c);
    assert t == Begin(s, move, RoamSleep(move.tx, move.ty, move.tz)) by {
      if bot.stationary || s.flags.converged {
        assert ActionStep(bot, s, c) == Goto(s, Chosen(3));
      } else {
        assert ActionStep(bot, s, c) == Goto(s, Chosen(0));
      }
      assert ActionStep(bot, ActionStep(bot, s, c), c) == Goto(s, Act(0));
    }
    LoopPacketsFit(move);
    SendIsOneFrame(bot, t, c);
    RunTogether(bot, s, [e, e, e], [e, e, e]);
    ThriceIsRun(bot, s, c);
    ThriceIsRun(bot, t, c);
  }

  // ---- Death ----

  /** Whatever comes next, at the top of the loop or in the middle of a taunt, is not yet an action. */
  predicate Mourning(a: Action) {
    match a
    case Running(pc) => pc.Top? || pc.Delay? || pc.CheckDead? || pc.Taunt? || pc.Stopped?
    case Sending(p, _, next) => (p == Appearing || (p.Say2? && p.chatType == 0)) && (next.Top? || next.Delay?)
  }

  /** Taunts go to the general channel. */
  predicate OnlyTalk(log: seq<Packet>) {
    forall i :: 0 <= i < |log| ==>
      log[i] == Appearing || (log[i].Say2? && log[i].chatType == 0) || log[i] == Logout
  }

  lemma MourningThink(bot: Bot, s: State, pc: Pc, c: Choice)
    requires s.flags.dead && s.action == Running(pc) && Mourning(s.action)
    ensures Mourning(Think(bot, s, pc, c).action)
  {
  }

  lemma MourningSend(s: State, c: Choice)
    requires s.action.Sending? && Mourning(s.action)
    ensures var a := s.action; Mourning(SendStep(s, a.packet, a.stage, a.next, c).action)
  {
    hide Encode, Encipher, Write, Written, Payload;
  }

  lemma MourningStep(bot: Bot, s: State, e: Event)
    requires s.flags.dead && Mourning(s.action)
    ensures var t := Step(bot, s, e);
      t.flags.dead && Mourning(t.action) && s.history.log <= t.history.log && OnlyTalk(t.history.log[|s.history.log|..])
  {
    StepIsLater(bot, s, e);
    hide Later, Think, SendStep, ReadStep, MainStep, Transmit, L.Receive;
    match e {
      case ActionSteps(c) =>
        ActionFrame(bot, s, c);
        LogGrows(bot, s, c);
        if s.action.Running? { MourningThink(bot, s, s.action.pc, c); } else { MourningSend(s, c); }
      case ClientReads => ReadLoopFrame(bot, s);
      case MainSteps(ok, cut) => MainFrame(s, ok, cut); FinalLogGrows(s, ok, cut);
      case _ =>
    }
  }

  /** Once the loop has seen that the bot is dead, it only talks and acknowledges teleports, for ever after. */
  lemma {:induction false} DeadBotOnlyTalks(bot: Bot, s: State, events: seq<Event>)
    requires s.flags.dead && Mourning(s.action)
    ensures var t := Run(bot, s, events);
      Mourning(t.action) && s.history.log <= t.history.log && OnlyTalk(t.history.log[|s.history.log|..])
    decreases events
  {
    if events != [] {
      hide Step, Mourning;
      var m := Step(bot, s, events[0]);
      MourningStep(bot, s, events[0]);
      DeadBotOnlyTalks(bot, m, events[1..]);
      OnlyTalkTogether(s.history.log, m.history.log, Run(bot, m, events[1..]).history.log);
    }
  }

  lemma OnlyTalkTogether(a: seq<Packet>, b: seq<Packet>, c: seq<Packet>)
    requires a <= b <= c && OnlyTalk(b[|a|..]) && OnlyTalk(c[|b|..])
    ensures OnlyTalk(c[|a|..])
  {
    assert c[|a|..] == b[|a|..] + c[|b|..];
  }

  /** The check between two actions leads a dead bot to its taunts. */
  lemma DeathIsNoticed(bot: Bot, s: State, c: Choice)
    requires s.flags.dead
    ensures Think(bot, s, CheckDead, c).action == Running(Taunt)
  {
  }

  // ---- Until it is noticed ----

  predicate IsAct(p: Packet) {
    p != Appearing && !p.Say2? && p != Logout
  }

  function CountActs(log: seq<Packet>): nat {
    if log == [] then 0 else CountActs(log[..|log| - 1]) + (if IsAct(log[|log| - 1]) then 1 else 0)
  }

  lemma CountActsMore(log: seq<Packet>, p: Packet)
    ensures CountActs(log + [p]) == CountActs(log) + if IsAct(p) then 1 else 0
  {
    assert (log + [p])[..|log|] == log;
  }

  /** How many packets of the action under way, or about to be chosen, can still come. */
  function ActsLeft(pc: Pc): nat {
    match pc
    case Choose => 11
    case Chosen(_) => 11
    case Act(_) => 11
    case RoamSleep(_, _, _) => 1
    case CombatTop(n) => 2 * n + 1
    case PickTarget(n) => 2 * Less(n) + 3
    case Strike(n, _, _, _, _) => 2 * Less(n) + 2
    case DrainSignal(n) => 2 * Less(n) + 1
    case AwaitSignal(n) => 2 * Less(n) + 1
    case _ => 0
  }

  function Pending(a: Action): nat {
    match a
    case Running(pc) => ActsLeft(pc)
    case Sending(p, _, next) => (if IsAct(p) then 1 else 0) + ActsLeft(next)
  }

  /** Acts made, and those still to be expected. */
  function Acts(s: State): nat {
    CountActs(s.history.log) + Pending(s.action)
  }

  lemma DyingThink(bot: Bot, s: State, pc: Pc, c: Choice)
    requires s.flags.dead && s.action == Running(pc)
    ensures Pending(Think(bot, s, pc, c).action) <= ActsLeft(pc)
  {
    hide FirstChoice, Fallback, Dispatch;
    if pc == CheckDead { DeathIsNoticed(bot, s, c); }
    if pc.Act? { DyingDispatch(s, pc.choice, c); }
  }

  lemma DyingDispatch(s: State, k: nat, c: Choice)
    requires s.action == Running(Act(k))
    ensures Pending(Dispatch(s, k, c).action) <= ActsLeft(Act(k))
  {
  }

  lemma DyingSend(s: State, c: Choice)
    requires s.action.Sending?
    ensures var a := s.action; var t := SendStep(s, a.packet, a.stage, a.next, c); Acts(t) <= Acts(s)
  {
    hide CountActs, Encode, Encipher, Write, Written, Payload;
    CountActsMore(s.history.log, s.action.packet);
  }

  lemma DyingStep(bot: Bot, s: State, e: Event)
    requires s.flags.dead
    ensures Step(bot, s, e).flags.dead && Acts(Step(bot, s, e)) <= Acts(s)
  {
    hide CountActs, Pending, Think, SendStep, ReadStep, MainStep, Transmit, L.Receive;
    match e {
      case ActionSteps(c) =>
        ActionFrame(bot, s, c);
        if s.action.Running? { DyingThink(bot, s, s.action.pc, c); PendingIs(s.action.pc); } else { DyingSend(s, c); }
      case ClientReads => ReadLoopFrame(bot, s);
      case MainSteps(ok, cut) =>
        MainFrame(s, ok, cut);
        FinalLogGrows(s, ok, cut);
        CountActsMore(s.history.log, Logout);
      case _ =>
    }
  }

  lemma PendingIs(pc: Pc)
    ensures Pending(Running(pc)) == ActsLeft(pc)
  {
  }

  /** Whenever a bot dies, it finishes at most the action it is at: from then on its acts are numbered. */
  lemma {:induction false} DeadBotFallsSilent(bot: Bot, s: State, events: seq<Event>)
    requires s.flags.dead
    ensures var t := Run(bot, s, events);
      t.flags.dead && s.history.log <= t.history.log && Acts(t) <= Acts(s)
    decreases events
  {
    if events != [] {
      hide Step, Acts;
      StepIsLater(bot, s, events[0]);
      DyingStep(bot, s, events[0]);
      DeadBotFallsSilent(bot, Step(bot, s, events[0]), events[1..]);
    }
  }

  // ---- How many acts that can be ----

  /** A fight has at most five targets. */
  predicate Bounded(a: Action) {
    match a
    case Running(pc) => ActsLeft(pc) <= 11
    case Sending(p, _, next) => ActsLeft(next) + (if IsAct(p) then 1 else 0) <= 11
  }

  lemma BoundedStep(bot: Bot, s: State, e: Event)
    requires Bounded(s.action)
    ensures Bounded(Step(bot, s, e).action)
  {
    hide Think, ReadStep, MainStep, Encode, Encipher, Write, Written, Payload, Transmit, L.Receive;
    match e {
      case ActionSteps(c) => if s.action.Running? { BoundedThink(bot, s, s.action.pc, c); }
      case ClientReads => ReadLoopFrame(bot, s);
      case MainSteps(ok, cut) => MainFrame(s, ok, cut);
      case _ =>
    }
  }

  lemma BoundedThink(bot: Bot, s: State, pc: Pc, c: Choice)
    requires s.action == Running(pc) && Bounded(s.action)
    ensures Bounded(Think(bot, s, pc, c).action)
  {
    hide FirstChoice, Fallback;
  }

  lemma {:induction false} BoundedRun(bot: Bot, s: State, events: seq<Event>)
    requires Bounded(s.action)
    ensures Bounded(Run(bot, s, events).action)
    decreases events
  {
    if events != [] {
      hide Step, Bounded;
      BoundedStep(bot, s, events[0]);
      BoundedRun(bot, Step(bot, s, events[0]), events[1..]);
    }
  }

  /** In every run a bot that has died sends at most eleven more packets besides chat, acknowledgements and Logout. */
  lemma ElevenActsAfterDeath(bot: Bot, buf: seq<byte>, up: Link, down: Link, before: seq<Event>, after: seq<Event>)
    requires Run(bot, Initial(buf, up, down), before).flags.dead
    ensures var s := Run(bot, Initial(buf, up, down), before);
      var t := Run(bot, Initial(buf, up, down), before + after);
      s.history.log <= t.history.log && CountActs(t.history.log) <= CountActs(s.history.log) + 11
  {
    hide Run, CountActs;
    var s0 := Initial(buf, up, down);
    BoundedRun(bot, s0, before);
    RunTogether(bot, s0, before, after);
    DeadBotFallsSilent(bot, Run(bot, s0, before), after);
  }
}
