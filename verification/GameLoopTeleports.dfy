/** Teleports and their acknowledgements in the game loop. */
module GameLoopTeleports {
  import opened Bytes
  import opened Framing
  import opened L = Link
  import opened Packets
  import opened GameLoop
  import opened GameLoopSafety
  import opened GameLoopDelivery
  import opened GameLoopPhases

  predicate Increasing(s: seq<nat>) {
    (forall i :: 0 <= i < |s| ==> s[i] > 0) && (forall i, j :: 0 <= i < j < |s| ==> s[i] < s[j])
  }

  function LastSwap(s: seq<nat>): nat {
    if s == [] then 0 else s[|s| - 1]
  }

  function CountAppearing(log: seq<Packet>): nat {
    if log == [] then 0 else CountAppearing(log[..|log| - 1]) + (if log[|log| - 1] == Appearing then 1 else 0)
  }

  lemma CountAppearingMore(log: seq<Packet>, p: Packet)
    ensures CountAppearing(log + [p]) == CountAppearing(log) + if p == Appearing then 1 else 0
  {
    assert (log + [p])[..|log|] == log;
  }

  /** Acknowledgements sent, and the one that may be under way. */
  function Acknowledged(s: State): nat {
    CountAppearing(s.history.log) + if s.action.Sending? && s.action.packet == Appearing then 1 else 0
  }

  /**
   * Each swap saw a teleport newer than all swaps before it; the flag is down exactly when the last swap has seen
   * every teleport so far; every swap is acknowledged, unless a write has failed.
   */
  predicate Acknowledging(s: State) {
    && Increasing(s.history.swaps)
    && LastSwap(s.history.swaps) <= s.history.teleports
    && (s.flags.pendingAppear <==> LastSwap(s.history.swaps) < s.history.teleports)
    && (if s.out.failed then Acknowledged(s) <= |s.history.swaps| else Acknowledged(s) == |s.history.swaps|)
    && (s.flags.converged || s.read == MidTeleport ==> s.history.teleports > 0)
  }

  /** The swap at the top of the loop is the only place that lowers the flag or starts an Appearing. */
  lemma ThinkSwaps(bot: Bot, s: State, pc: Pc, c: Choice)
    requires s.action == Running(pc)
    ensures var t := Think(bot, s, pc, c);
      if pc == Top && s.flags.pendingAppear then
        && !t.flags.pendingAppear && t.history.swaps == s.history.swaps + [s.history.teleports]
        && t.action == Sending(Appearing, Fresh, Delay)
      else
        && t.flags.pendingAppear == s.flags.pendingAppear && t.history.swaps == s.history.swaps
        && !(t.action.Sending? && t.action.packet == Appearing)
  {
    hide FirstChoice, Fallback;
  }

  /** A send in progress, one stage further: only a failure loses an acknowledgement. */
  predicate SentOn(s: State, t: State) {
    && t.flags == s.flags && t.read == s.read
    && t.history.teleports == s.history.teleports && t.history.swaps == s.history.swaps
    && (s.out.failed ==> t.out.failed) && Acknowledged(t) <= Acknowledged(s)
    && (!t.out.failed ==> Acknowledged(t) == Acknowledged(s))
  }

  lemma SendAcknowledges(s: State, c: Choice)
    requires s.action.Sending?
    ensures var a := s.action; SentOn(s, SendStep(s, a.packet, a.stage, a.next, c))
  {
    hide SendStep, SentOn;
    match s.action.stage {
      case Fresh => EncodeAcknowledges(s, c);
      case Encoded => EncipherAcknowledges(s, c);
      case Enciphered(_) => WriteAcknowledges(s, c);
    }
  }

  lemma EncodeAcknowledges(s: State, c: Choice)
    requires s.action.Sending? && s.action.stage.Fresh?
    ensures var a := s.action; SentOn(s, SendStep(s, a.packet, a.stage, a.next, c))
  {
    hide Encode, Payload, Filled, CountAppearing;
    EncodeSendsNothing(s.out, Filled(s.action.packet, s.out.buf));
    FilledAppearing(s.action.packet, s.out.buf);
  }

  lemma FilledAppearing(p: Packet, buf: seq<byte>)
    ensures Filled(p, buf) == Appearing <==> p == Appearing
  {
  }

  lemma EncipherAcknowledges(s: State, c: Choice)
    requires s.action.Sending? && s.action.stage.Encoded?
    ensures var a := s.action; SentOn(s, SendStep(s, a.packet, a.stage, a.next, c))
  {
    hide Encipher, Payload, CountAppearing;
    EncipherSendsNothing(s.out, |Payload(s.action.packet)|);
  }

  lemma WriteAcknowledges(s: State, c: Choice)
    requires s.action.Sending? && s.action.stage.Enciphered?
    ensures var a := s.action; SentOn(s, SendStep(s, a.packet, a.stage, a.next, c))
  {
    hide Write, Written, Payload, CountAppearing;
    CountAppearingMore(s.history.log, s.action.packet);
    WriteFails(s.out, Payload(s.action.packet), c.yes, c.dice);
  }

  lemma WriteFails(o: Outbound, payload: seq<byte>, ok: bool, cut: nat)
    ensures var t := Write(o, payload, ok, cut); t.failed <==> o.failed || !Written(o, t)
  {
    hide Front, Frame;
  }

  lemma ActionAcknowledges(bot: Bot, s: State, c: Choice)
    requires Acknowledging(s)
    ensures Acknowledging(ActionStep(bot, s, c))
  {
    ActionFrame(bot, s, c);
    hide Think, SendStep, CountAppearing;
    if s.action.Running? {
      ThinkSwaps(bot, s, s.action.pc, c);
      ThinkFrame(bot, s, s.action.pc, c);
    } else {
      SendAcknowledges(s, c);
    }
  }

  lemma MainAcknowledges(s: State, ok: bool, cut: nat)
    requires Acknowledging(s)
    ensures Acknowledging(MainStep(s, ok, cut))
  {
    MainFrame(s, ok, cut);
    FinalLogGrows(s, ok, cut);
    CountAppearingMore(s.history.log, Logout);
    MainOnlyFails(s, ok, cut);
    hide MainStep, CountAppearing;
  }

  lemma MainOnlyFails(s: State, ok: bool, cut: nat)
    ensures s.out.failed ==> MainStep(s, ok, cut).out.failed
  {
    hide Overwritten, Front, Payload, Frame, RollingXor.Encrypted;
  }

  /** A teleport raises the flag, then the read loop has the second one still to raise. */
  lemma ReadTeleports(bot: Bot, s: State)
    ensures var t := ReadStep(bot, s);
      || (t.history.teleports == s.history.teleports && t.flags.pendingAppear == s.flags.pendingAppear
          && (t.read == s.read || t.read == Ended))
      || (t.history.teleports == s.history.teleports + 1 && t.flags.pendingAppear && t.read == MidTeleport)
  {
    hide AddTo, L.Receive, RollingXor.Decrypted, ItemList.Extract, Le32, ReadFrame, IsSelf;
  }

  lemma StepAcknowledges(bot: Bot, s: State, e: Event)
    requires Acknowledging(s)
    ensures Acknowledging(Step(bot, s, e))
  {
    hide ActionStep, MainStep, ReadStep, CountAppearing, Transmit, L.Receive;
    match e {
      case ActionSteps(c) => ActionAcknowledges(bot, s, c);
      case MainSteps(ok, cut) => MainAcknowledges(s, ok, cut);
      case ClientReads => ReadTeleports(bot, s); ReadLoopFrame(bot, s);
      case _ =>
    }
  }

  lemma {:induction false} RunAcknowledges(bot: Bot, s: State, events: seq<Event>)
    requires Acknowledging(s)
    ensures Acknowledging(Run(bot, s, events))
    decreases events
  {
    if events != [] {
      hide Step, Acknowledging;
      StepAcknowledges(bot, s, events[0]);
      RunAcknowledges(bot, Step(bot, s, events[0]), events[1..]);
    }
  }

  lemma {:induction false} IncreasingIsShort(s: seq<nat>)
    requires Increasing(s)
    ensures |s| <= LastSwap(s)
  {
    if s != [] { IncreasingIsShort(s[..|s| - 1]); }
  }

  /**
   * No teleport goes unacknowledged. In every interleaving the acknowledgements number no more than the teleports;
   * while no write fails each answers its own newer teleport, and when the flag is down the last one has answered
   * them all. A bot that has converged has acknowledged its teleport or is about to.
   */
  lemma TeleportsAreAcknowledged(bot: Bot, buf: seq<byte>, up: Link, down: Link, events: seq<Event>)
    ensures var s := Run(bot, Initial(buf, up, down), events);
      && CountAppearing(s.history.log) <= |s.history.swaps| <= s.history.teleports
      && (!s.flags.pendingAppear ==> LastSwap(s.history.swaps) == s.history.teleports)
      && (!s.out.failed ==> Acknowledged(s) == |s.history.swaps|)
      && (s.flags.converged ==> s.flags.pendingAppear || s.history.swaps != [])
      && Increasing(s.history.swaps)
  {
    var s := Run(bot, Initial(buf, up, down), events);
    RunAcknowledges(bot, Initial(buf, up, down), events);
    hide Run, CountAppearing;
    IncreasingIsShort(s.history.swaps);
  }
}
