/** What every interleaving of the game loop keeps, and what the server gets to see of it. */
module GameLoopSafety {
  import opened Bytes
  import opened RollingXor
  import opened Framing
  import opened L = Link
  import opened Packets
  import opened T = TargetRing
  import opened GameLoop

  // ---- What each goroutine leaves alone ----

  /** Between two sends the action loop clears a flag at most, and notes a swap. */
  lemma ThinkFrame(bot: Bot, s: State, pc: Pc, c: Choice)
    ensures var t := Think(bot, s, pc, c);
      && t.out == s.out && t.down == s.down && t.known == s.known && t.main == s.main && t.read == s.read
      && t.history.log == s.history.log && t.history.teleports == s.history.teleports
      && t.flags.cancelled == s.flags.cancelled && t.flags.converged == s.flags.converged
      && t.flags.dead == s.flags.dead
  {
    hide Add, IsPhrase, FirstChoice, Fallback;
  }

  lemma ActionFrame(bot: Bot, s: State, c: Choice)
    ensures var t := ActionStep(bot, s, c);
      && t.down == s.down && t.known == s.known && t.main == s.main && t.read == s.read
      && t.history.teleports == s.history.teleports
      && t.flags.cancelled == s.flags.cancelled && t.flags.converged == s.flags.converged
      && t.flags.dead == s.flags.dead
      && (s.action.Running? ==> t.out == s.out && t.history.log == s.history.log)
      && (s.action.Sending? ==> t.flags == s.flags && t.history.swaps == s.history.swaps)
      && (s.action == Running(Stopped) ==> t == s)
  {
    hide Think, Encode, Encipher, Write, Written, Payload, Filled;
    if s.action.Running? { ThinkFrame(bot, s, s.action.pc, c); }
    if s.action == Running(Stopped) { StoppedStays(bot, s, c); }
  }

  lemma StoppedStays(bot: Bot, s: State, c: Choice)
    ensures Think(bot, s, Stopped, c) == s
  {
  }

  /** The read loop sets flags, learns, and takes packets; it never writes. */
  lemma ReadLoopFrame(bot: Bot, s: State)
    ensures var t := ReadStep(bot, s);
      && t.out == s.out && t.action == s.action && t.main == s.main
      && t.history.log == s.history.log && t.history.swaps == s.history.swaps
      && t.flags.cancelled == s.flags.cancelled && t.flags.converged == s.flags.converged
      && (s.flags.dead ==> t.flags.dead) && (s.flags.pendingAppear ==> t.flags.pendingAppear)
  {
    hide Learn, Receive, Decrypted, ReadFrame;
    if s.read == Reading && ReadFrame(s.down.wire).Packet? {
      LearningKeepsFlags(bot, s.flags, s.known, Decrypted(s.down.inKey, ReadFrame(s.down.wire).payload));
    }
  }

  lemma LearningKeepsFlags(bot: Bot, flags: Flags, known: Known, data: seq<byte>)
    ensures var l := Learn(bot, flags, known, data).flags;
      && l.cancelled == flags.cancelled && l.converged == flags.converged
      && (flags.dead ==> l.dead) && (flags.pendingAppear ==> l.pendingAppear)
  {
    hide AddTo, IsSelf, ItemList.Extract, Le32;
  }

  lemma MainFrame(s: State, ok: bool, cut: nat)
    ensures var t := MainStep(s, ok, cut);
      && t.flags == s.flags && t.known == s.known && t.down == s.down && t.action == s.action && t.read == s.read
      && t.history.teleports == s.history.teleports && t.history.swaps == s.history.swaps
      && (!s.main.LoggingOut? ==> t.out == s.out && t.history.log == s.history.log)
  {
    hide Encode, Encipher, Write, Written, Payload;
  }

  /** A run continued. */
  lemma {:induction false} RunTogether(bot: Bot, s: State, first: seq<Event>, second: seq<Event>)
    ensures Run(bot, s, first + second) == Run(bot, Run(bot, s, first), second)
    decreases first
  {
    hide Step;
    if first == [] {
      assert first + second == second;
    } else {
      assert (first + second)[1..] == first[1..] + second;
      RunTogether(bot, Step(bot, s, first[0]), first[1..], second);
    }
  }

  // ---- One writer at a time ----

  /** The packet being sent, by whichever goroutine sends. */
  function Sender(s: State): Action {
    if s.main.LoggingOut? then Sending(Logout, s.main.stage, Stopped) else s.action
  }

  /** The action loop has stopped before the main goroutine writes; that one waits for cancellation first. */
  predicate Orderly(s: State) {
    && (s.main != WaitCancel ==> s.flags.cancelled)
    && (s.main.LoggingOut? || s.main.Done? ==> s.action == Running(Stopped))
  }

  /** A step of a goroutine that has a packet to encode, encrypt or write, whether or not the write goes through. */
  predicate Sends(s: State, e: Event) {
    (e.ActionSteps? && s.action.Sending?) || (e.MainSteps? && s.main.LoggingOut?)
  }

  lemma OrderlyStep(bot: Bot, s: State, e: Event)
    requires Orderly(s)
    ensures Orderly(Step(bot, s, e))
  {
    hide ActionStep, ReadStep, Receive, Transmit, LogoutStep;
    match e {
      case ActionSteps(c) => ActionFrame(bot, s, c);
      case ClientReads => ReadLoopFrame(bot, s);
      case MainSteps(ok, cut) => MainFrame(s, ok, cut);
      case _ =>
    }
    if s.main.LoggingOut? && e.MainSteps? { LogoutEnds(s, s.main.stage, e.ok, e.cut); }
  }

  lemma LogoutEnds(s: State, stage: Stage, ok: bool, cut: nat)
    ensures LogoutStep(s, stage, ok, cut).main.LoggingOut? || LogoutStep(s, stage, ok, cut).main.Done?
  {
    hide Encode, Encipher, Write, Written, Payload;
  }

  lemma {:induction false} OrderlyRun(bot: Bot, s: State, events: seq<Event>)
    requires Orderly(s)
    ensures Orderly(Run(bot, s, events))
    decreases events
  {
    if events != [] {
      OrderlyStep(bot, s, events[0]);
      hide Step;
      OrderlyRun(bot, Step(bot, s, events[0]), events[1..]);
    }
  }

  /**
   * Any other step leaves the send buffer, the outgoing key, the stream and the failure flag alone, down to the last
   * byte, but for the server taking frames off the far end.
   */
  lemma OnlySendersTouch(bot: Bot, s: State, e: Event)
    requires !Sends(s, e)
    ensures var t := Step(bot, s, e);
      t.out == s.out || (e.ServerReads? && t.out == s.out.(link := Receive(s.out.link)))
  {
    hide ActionStep, ReadStep, Transmit, MainStep, Receive;
    match e {
      case ActionSteps(c) => ActionFrame(bot, s, c);
      case ClientReads => ReadLoopFrame(bot, s);
      case MainSteps(ok, cut) => MainFrame(s, ok, cut);
      case _ =>
    }
  }

  /** In no reachable state do two goroutines have something to send; the main one has only after the other stopped. */
  lemma SingleWriter(bot: Bot, buf: seq<byte>, up: Link, down: Link, events: seq<Event>, e1: Event, e2: Event)
    ensures var s := Run(bot, Initial(buf, up, down), events);
      && (Sends(s, e1) && Sends(s, e2) ==> (e1.ActionSteps? && e2.ActionSteps?) || (e1.MainSteps? && e2.MainSteps?))
      && (Sends(s, e1) && e1.MainSteps? ==> s.flags.cancelled && s.action == Running(Stopped))
  {
    OrderlyRun(bot, Initial(buf, up, down), events);
    hide Run;
  }
}
