/** A cancelled game loop can always come to its end: no state is a trap, and no write needs to fail on the way. */
module GameLoopShutdown {
  import opened Bytes
  import opened RollingXor
  import opened Framing
  import opened L = Link
  import opened Packets
  import opened GameLoop
  import opened GameLoopSafety
  import opened GameLoopDelivery

  /** Steps left until the action loop has stopped. */
  function PcRank(pc: Pc): nat {
    match pc
    case Stopped => 0
    case Delay => 1
    case RoamSleep(_, _, _) => 1
    case AwaitSignal(_) => 1
    case CombatTop(n) => if n > 0 then 1 else 9
    case DrainSignal(_) => 2
    case Top => 5
    case Strike(_, _, _, _, _) => 6
    case Taunt => 6
    case Act(_) => 9
    case Chosen(_) => 10
    case PickTarget(_) => 10
    case Choose => 11
    case CheckDead => 12
  }

  function StageRank(stage: Stage): nat {
    match stage
    case Fresh => 3
    case Encoded => 2
    case Enciphered(_) => 1
  }

  function ActionRank(a: Action): nat {
    match a
    case Running(pc) => PcRank(pc)
    case Sending(_, stage, next) => StageRank(stage) + PcRank(next)
  }

  function MainRank(m: Main): nat {
    match m
    case WaitCancel => 5
    case WaitLoop => 4
    case LoggingOut(stage) => StageRank(stage)
    case Done => 0
  }

  /** What the outside world may decide so that the loop gets closer to its end. */
  function Plan(s: State): Choice {
    var no := Choice(false, 0, Appearing);
    match s.action
    case Sending(_, _, _) => no.(yes := true)
    case Running(pc) => PlanAt(s, pc)
  }

  function PlanAt(s: State, pc: Pc): Choice {
    var no := Choice(false, 0, Appearing);
    match pc
    case Choose => no.(dice := 4)
    case Act(k) =>
      if k == 0 then no.(packet := MoveToLocation(0, 0, 0, 0, 0, 0))
      else if k == 1 then no.(packet := ActionUse(SOCIAL_ACTIONS[0], false, false))
      else if k == 2 && s.known.items != [] then no.(packet := UseItem(s.known.items[0], false))
      else if k == 4 then no.(packet := Say2([], CHANNELS[0]))
      else no
    case PickTarget(_) =>
      if s.known.ring.npcs == [] then no else no.(packet := Packet.Action(s.known.ring.npcs[0], 0, 0, 0, 0))
    case _ => no
  }

  lemma PlanAdvances(bot: Bot, s: State, pc: Pc)
    requires s.flags.cancelled && s.action == Running(pc) && pc != Stopped
    ensures ActionRank(Think(bot, s, pc, PlanAt(s, pc)).action) < PcRank(pc)
  {
  }

  lemma SendAdvances(s: State, c: Choice)
    requires s.action.Sending?
    ensures var a := s.action; var t := SendStep(s, a.packet, a.stage, a.next, c);
      ActionRank(t.action) < ActionRank(a)
  {
    hide Encode, Encipher, Write, Written, Payload, Filled;
  }

  /** A write that is let through does not fail. */
  lemma WriteSucceeds(o: Outbound, p: Packet, key: Key, next: Resume, cut: nat)
    requires Consistent(o, Sending(p, Enciphered(key), next)) && !o.failed
    ensures !Write(o, Payload(p), true, cut).failed
  {
    hide Payload, InStep, Front, Advance, Frame;
  }

  lemma SendSucceeds(s: State, c: Choice, before: seq<seq<byte>>)
    requires Delivering(s, before) && s.action.Sending? && c.yes && !s.out.failed
    ensures var a := s.action; !SendStep(s, a.packet, a.stage, a.next, c).out.failed
  {
    hide Payload, InStep, Payloads, Write, Written, Encode, Encipher, Filled, FromLoop;
    match s.action.stage {
      case Fresh => EncodeSendsNothing(s.out, Filled(s.action.packet, s.out.buf));
      case Encoded => EncipherSendsNothing(s.out, |Payload(s.action.packet)|);
      case Enciphered(key) => WriteSucceeds(s.out, s.action.packet, key, s.action.next, c.dice);
    }
  }

  lemma LogoutSucceeds(s: State, before: seq<seq<byte>>)
    requires Delivering(s, before) && s.main.LoggingOut? && !s.out.failed
    ensures !LogoutStep(s, s.main.stage, true, 0).out.failed
  {
    hide Payload, InStep, Payloads, Write, Written, Encode, Encipher, FromLoop;
    match s.main.stage {
      case Fresh => EncodeSendsNothing(s.out, Logout);
      case Encoded => EncipherSendsNothing(s.out, |Payload(Logout)|);
      case Enciphered(key) => WriteSucceeds(s.out, Logout, key, Stopped, 0);
    }
  }

  function NextEvent(s: State): Event {
    if s.action == Running(Stopped) then MainSteps(true, 0) else ActionSteps(Plan(s))
  }

  function Rank(s: State): nat {
    ActionRank(s.action) + MainRank(s.main)
  }

  lemma ActionAdvances(bot: Bot, s: State, before: seq<seq<byte>>)
    requires Delivering(s, before) && s.flags.cancelled && s.action != Running(Stopped)
    ensures var t := ActionStep(bot, s, Plan(s));
      ActionRank(t.action) < ActionRank(s.action) && (!s.out.failed ==> !t.out.failed)
  {
    ActionFrame(bot, s, Plan(s));
    hide Think, SendStep, PlanAt, Delivering;
    if s.action.Running? {
      PlanAdvances(bot, s, s.action.pc);
    } else {
      SendAdvances(s, Plan(s));
      if !s.out.failed { SendSucceeds(s, Plan(s), before); }
    }
  }

  lemma MainAdvances(s: State, before: seq<seq<byte>>)
    requires Delivering(s, before) && s.flags.cancelled && s.action == Running(Stopped) && !s.main.Done?
    ensures var t := MainStep(s, true, 0);
      MainRank(t.main) < MainRank(s.main) && (!s.out.failed ==> !t.out.failed)
  {
    MainFrame(s, true, 0);
    if s.main.LoggingOut? {
      LogoutAdvances(s);
      if !s.out.failed { LogoutSucceeds(s, before); }
    }
    hide LogoutStep, Delivering;
  }

  lemma LogoutAdvances(s: State)
    requires s.main.LoggingOut?
    ensures MainRank(LogoutStep(s, s.main.stage, true, 0).main) < MainRank(s.main)
  {
    hide Encode, Encipher, Write, Written, Payload;
  }

  lemma NextEventAdvances(bot: Bot, s: State, before: seq<seq<byte>>)
    requires Delivering(s, before) && s.flags.cancelled && !s.main.Done?
    ensures var t := Step(bot, s, NextEvent(s));
      Rank(t) < Rank(s) && t.flags.cancelled && (!s.out.failed ==> !t.out.failed)
  {
    hide ActionStep, MainStep, Plan, Delivering, ActionRank, MainRank;
    if s.action == Running(Stopped) {
      MainFrame(s, true, 0);
      MainAdvances(s, before);
    } else {
      ActionFrame(bot, s, Plan(s));
      ActionAdvances(bot, s, before);
    }
  }

  lemma {:induction false} CanFinish(bot: Bot, s: State, before: seq<seq<byte>>) returns (events: seq<Event>)
    requires Delivering(s, before) && s.flags.cancelled
    ensures |events| <= Rank(s)
    ensures var t := Run(bot, s, events); t.main.Done? && (!s.out.failed ==> !t.out.failed)
    decreases Rank(s)
  {
    hide Step, Rank, NextEvent, Delivering;
    if s.main.Done? {
      events := [];
    } else {
      var e := NextEvent(s);
      NextEventAdvances(bot, s, before);
      StepDelivers(bot, s, e, before);
      var rest := CanFinish(bot, Step(bot, s, e), before);
      events := [e] + rest;
      assert events[1..] == rest;
    }
  }

  lemma RankIsSmall(s: State)
    ensures Rank(s) <= 20
  {
  }

  /**
   * Whatever has happened, a cancelled run can be finished in at most twenty further steps, and if no write has
   * failed by then, none has to: the log ends in the Logout.
   */
  lemma EveryRunCanLogOut(bot: Bot, buf: seq<byte>, up: Link, down: Link, events: seq<Event>)
    returns (more: seq<Event>)
    requires InStep(up) && InStep(down)
    requires Run(bot, Initial(buf, up, down), events).flags.cancelled
    ensures |more| <= 20
    ensures var s := Run(bot, Initial(buf, up, down), events);
      var t := Run(bot, Initial(buf, up, down), events + more);
      t.main.Done? && (!s.out.failed ==> EndsInLogout(t.history.log))
  {
    hide Run, Initial, Rank, InStep, Delivering, EndsInLogout;
    var s0 := Initial(buf, up, down);
    StartDelivers(buf, up, down);
    RunDelivers(bot, s0, events, up.sent);
    var s := Run(bot, s0, events);
    more := CanFinish(bot, s, up.sent);
    RankIsSmall(s);
    RunTogether(bot, s0, events, more);
    LogoutIsTheLastWord(bot, buf, up, down, events + more);
  }
}
