/** What the server gets of the game loop: every packet in order, then one Logout, and nothing after it. */
module GameLoopDelivery {
  import opened Bytes
  import opened RollingXor
  import opened Framing
  import opened L = Link
  import C = Channel
  import opened Packets
  import opened WordRuns
  import opened WideStrings
  import opened GameLoop
  import opened GameLoopSafety

  /** The packets the action loop sends. */
  predicate FromLoop(p: Packet) {
    match p
    case MoveToLocation(_, _, _, _, _, _) => true
    case ValidatePosition(_, _, _, _) => true
    case ActionUse(_, _, _) => true
    case UseItem(_, _) => true
    case Action(_, _, _, _, _) => true
    case Attack(_, _, _, _, _) => true
    case MagicSkillUse(_, _, _, _) => true
    case Say2(text, _) => |text| <= 124
    case Appearing => true
    case _ => false
  }

  lemma LoopPacketsFit(p: Packet)
    requires FromLoop(p) || p == Logout
    ensures Fits(Payload(p))
  {
    hide Stored, Widen;
  }

  lemma FilledIsAlike(p: Packet, buf: seq<byte>)
    ensures FromLoop(Filled(p, buf)) == FromLoop(p) && (p == Logout ==> Filled(p, buf) == p)
  {
    hide Payload;
  }

  /** Whatever the loop decides to send is one of its packets, not yet encoded. */
  lemma ThinkSendsOwnPackets(bot: Bot, s: State, pc: Pc, c: Choice)
    ensures var a := Think(bot, s, pc, c).action;
      a.Sending? && a != s.action ==> FromLoop(a.packet) && a.stage == Fresh
  {
    hide FirstChoice, Fallback;
  }

  // ---- The buffer, the key and the stream while a packet is on its way ----

  ghost predicate Consistent(o: Outbound, a: Action) {
    o.failed ||
    match a
    case Running(_) => InStep(o.link)
    case Sending(p, stage, _) => Fits(Payload(p)) && ConsistentAt(o, Payload(p), stage)
  }

  ghost predicate ConsistentAt(o: Outbound, payload: seq<byte>, stage: Stage) {
    match stage
    case Fresh => InStep(o.link)
    case Encoded => InStep(o.link) && Front(o.buf, |payload|) == payload
    case Enciphered(key) => (
      && InStep(o.link.(outKey := key)) && o.link.outKey == Advance(key, |payload|)
      && Front(o.buf, |payload|) == Encrypted(key, payload))
  }

  lemma FrontOverwritten(buf: seq<byte>, s: seq<byte>)
    ensures Front(Overwritten(buf, s), |s|) == s
  {
  }

  lemma EncodeKeeps(o: Outbound, p: Packet, next: Resume)
    requires Consistent(o, Running(next)) && Fits(Payload(p))
    ensures Consistent(Encode(o, p), Sending(p, Encoded, next))
  {
    FrontOverwritten(o.buf, Payload(p));
    hide Payload, InStep, Overwritten, Front;
  }

  lemma EncipherKeeps(o: Outbound, p: Packet, next: Resume)
    requires Consistent(o, Sending(p, Encoded, next))
    ensures Consistent(Encipher(o, |Payload(p)|), Sending(p, Enciphered(o.link.outKey), next))
  {
    hide Payload, InStep, Overwritten, Front, Advance, Encrypted;
    FrontOverwritten(o.buf, Encrypted(o.link.outKey, Front(o.buf, |Payload(p)|)));
    var key := o.link.outKey;
    assert o.link.(outKey := Advance(key, |Payload(p)|)).(outKey := key) == o.link;
  }

  /** A write that goes through is one Transmit of the payload under the key the stage remembers. */
  lemma WriteKeeps(o: Outbound, p: Packet, key: Key, next: Resume, ok: bool, cut: nat, after: Pc)
    requires Consistent(o, Sending(p, Enciphered(key), next))
    ensures var t := Write(o, Payload(p), ok, cut);
      && Consistent(t, Running(after)) && (o.failed ==> t.failed)
      && (Written(o, t) ==> t.link.sent == o.link.sent + [Payload(p)])
      && (!Written(o, t) ==> t.failed && t.link.sent == o.link.sent)
  {
    hide Payload, InStep, Front, Advance, Encrypted, Frame;
    var t := Write(o, Payload(p), ok, cut);
    if !t.failed {
      var l := o.link.(outKey := key);
      TransmitKeepsStep(l, Payload(p));
      assert t.link == Transmit(l, Payload(p));
    }
  }

  lemma ReceiveKeeps(o: Outbound, a: Action)
    requires Consistent(o, a)
    ensures Consistent(o.(link := Receive(o.link)), a)
    ensures Receive(o.link).sent == o.link.sent
  {
    hide Payload, InStep, Front, Advance, Encrypted, Decrypted, ReadFrame;
    if !o.failed {
      if a.Sending? && a.stage.Enciphered? {
        var l := o.link.(outKey := a.stage.key);
        ReceiveDelivers(l);
        assert Receive(o.link).(outKey := a.stage.key) == Receive(l);
      } else {
        ReceiveDelivers(o.link);
      }
    }
  }

  // ---- The log ----

  function Payloads(log: seq<Packet>): (s: seq<seq<byte>>)
    ensures |s| == |log|
  {
    seq(|log|, i requires 0 <= i < |log| => Payload(log[i]))
  }

  lemma PayloadsMore(log: seq<Packet>, p: Packet)
    ensures Payloads(log + [p]) == Payloads(log) + [Payload(p)]
  {
    hide Payload;
  }

  predicate AllFromLoop(log: seq<Packet>) {
    forall i :: 0 <= i < |log| ==> FromLoop(log[i])
  }

  /** A run's whole log: the loop's packets, then a Logout. */
  predicate EndsInLogout(log: seq<Packet>) {
    log != [] && log[|log| - 1] == Logout && AllFromLoop(log[..|log| - 1])
  }

  ghost predicate Delivering(s: State, before: seq<seq<byte>>) {
    && Orderly(s) && InStep(s.down)
    && Consistent(s.out, Sender(s))
    && (s.action.Sending? ==> FromLoop(s.action.packet))
    && s.out.link.sent == before + Payloads(s.history.log)
    && (if s.main.Done? then EndsInLogout(s.history.log) || (s.out.failed && AllFromLoop(s.history.log))
        else AllFromLoop(s.history.log))
  }

  lemma ActionDelivers(bot: Bot, s: State, c: Choice, before: seq<seq<byte>>)
    requires Delivering(s, before)
    ensures Delivering(ActionStep(bot, s, c), before)
  {
    OrderlyStep(bot, s, ActionSteps(c));
    ActionFrame(bot, s, c);
    hide Think, Payload, InStep, Payloads, Write, Written, Encode, Encipher, Filled, FromLoop;
    if s.action == Running(Stopped) {
    } else if s.action.Running? {
      ThinkSendsOwnPackets(bot, s, s.action.pc, c);
      var a := Think(bot, s, s.action.pc, c).action;
      if a.Sending? { LoopPacketsFit(a.packet); }
    } else {
      SendDelivers(s, c, before);
    }
  }

  lemma SendDelivers(s: State, c: Choice, before: seq<seq<byte>>)
    requires Delivering(s, before) && s.action.Sending?
    ensures var a := s.action; var t := SendStep(s, a.packet, a.stage, a.next, c);
      && Consistent(t.out, Sender(t)) && (t.action.Sending? ==> FromLoop(t.action.packet))
      && t.out.link.sent == before + Payloads(t.history.log) && AllFromLoop(t.history.log)
  {
    hide Payload, InStep, Payloads, Write, Written, Encode, Encipher, Filled, FromLoop;
    var p, next := s.action.packet, s.action.next;
    match s.action.stage {
      case Fresh =>
        var q := Filled(p, s.out.buf);
        FilledIsAlike(p, s.out.buf);
        LoopPacketsFit(q);
        EncodeKeeps(s.out, q, next);
        EncodeSendsNothing(s.out, q);
      case Encoded =>
        EncipherKeeps(s.out, p, next);
        EncipherSendsNothing(s.out, |Payload(p)|);
      case Enciphered(key) =>
        WriteKeeps(s.out, p, key, next, c.yes, c.dice, next);
        WriteKeeps(s.out, p, key, next, c.yes, c.dice, Stopped);
        PayloadsMore(s.history.log, p);
    }
  }

  lemma EncodeSendsNothing(o: Outbound, p: Packet)
    ensures Encode(o, p).link == o.link && Encode(o, p).failed == o.failed
  {
  }

  lemma EncipherSendsNothing(o: Outbound, n: nat)
    ensures Encipher(o, n).link.sent == o.link.sent && Encipher(o, n).failed == o.failed
  {
  }

  lemma LogoutSends(s: State, ok: bool, cut: nat, before: seq<seq<byte>>)
    requires Delivering(s, before) && s.main.LoggingOut?
    ensures var t := LogoutStep(s, s.main.stage, ok, cut);
      && Consistent(t.out, Sender(t)) && t.action == s.action && t.down == s.down
      && t.out.link.sent == before + Payloads(t.history.log)
      && (if t.main.Done? then EndsInLogout(t.history.log) || (t.out.failed && t.history.log == s.history.log)
          else t.history.log == s.history.log)
  {
    hide Payload, InStep, Payloads, Write, Written, Encode, Encipher, FromLoop;
    LoopPacketsFit(Logout);
    match s.main.stage {
      case Fresh =>
        EncodeKeeps(s.out, Logout, Stopped);
        EncodeSendsNothing(s.out, Logout);
      case Encoded =>
        EncipherKeeps(s.out, Logout, Stopped);
        EncipherSendsNothing(s.out, |Payload(Logout)|);
      case Enciphered(key) =>
        WriteKeeps(s.out, Logout, key, Stopped, ok, cut, Stopped);
        PayloadsMore(s.history.log, Logout);
        assert (s.history.log + [Logout])[..|s.history.log|] == s.history.log;
    }
  }

  lemma LogoutDelivers(bot: Bot, s: State, ok: bool, cut: nat, before: seq<seq<byte>>)
    requires Delivering(s, before) && s.main.LoggingOut?
    ensures Delivering(LogoutStep(s, s.main.stage, ok, cut), before)
  {
    OrderlyStep(bot, s, MainSteps(ok, cut));
    LogoutSends(s, ok, cut, before);
    hide Payload, InStep, Payloads, LogoutStep, Consistent, Sender, FromLoop;
  }

  lemma MainDelivers(bot: Bot, s: State, ok: bool, cut: nat, before: seq<seq<byte>>)
    requires Delivering(s, before)
    ensures Delivering(MainStep(s, ok, cut), before)
  {
    hide Payload, InStep, Payloads, FromLoop, LogoutStep, Frame;
    if s.main.LoggingOut? {
      LogoutDelivers(bot, s, ok, cut, before);
    } else {
      OrderlyStep(bot, s, MainSteps(ok, cut));
      LoopPacketsFit(Logout);
    }
  }

  lemma ReadDelivers(bot: Bot, s: State, before: seq<seq<byte>>)
    requires Delivering(s, before)
    ensures Delivering(ReadStep(bot, s), before)
  {
    OrderlyStep(bot, s, ClientReads);
    ReadLoopFrame(bot, s);
    ReadTakesNext(bot, s);
    ReceiveDelivers(s.down);
    hide Payload, InStep, Payloads, FromLoop, ReadStep, Receive, Consistent;
  }

  /** The read loop works through the incoming stream one packet at a time. */
  lemma ReadTakesNext(bot: Bot, s: State)
    ensures ReadStep(bot, s).down == s.down || ReadStep(bot, s).down == Receive(s.down)
  {
    hide AddTo, Receive, Decrypted, Le32, ReadFrame, IsSelf;
  }

  lemma StepDelivers(bot: Bot, s: State, e: Event, before: seq<seq<byte>>)
    requires Delivering(s, before)
    ensures Delivering(Step(bot, s, e), before)
  {
    hide ActionStep, MainStep, ReadStep, Payload, InStep, Payloads, FromLoop, Receive, Transmit;
    match e {
      case ActionSteps(c) => ActionDelivers(bot, s, c, before);
      case MainSteps(ok, cut) => MainDelivers(bot, s, ok, cut, before);
      case ClientReads => ReadDelivers(bot, s, before);
      case ServerReads => ReceiveKeeps(s.out, Sender(s));
      case ServerSends(payload) => if Fits(payload) { TransmitKeepsStep(s.down, payload); }
      case _ =>
    }
  }

  lemma {:induction false} RunDelivers(bot: Bot, s: State, events: seq<Event>, before: seq<seq<byte>>)
    requires Delivering(s, before)
    ensures Delivering(Run(bot, s, events), before)
    decreases events
  {
    if events != [] {
      hide Step, Delivering;
      StepDelivers(bot, s, events[0], before);
      RunDelivers(bot, Step(bot, s, events[0]), events[1..], before);
    }
  }

  // ---- The theorems ----

  /** The up link as the server's side of it will see it, a half-sent packet aside. */
  function Settled(s: State): Link {
    var a := Sender(s);
    if a.Sending? && a.stage.Enciphered? then s.out.link.(outKey := a.stage.key) else s.out.link
  }

  /**
   * In every interleaving without a failed write, the server has received, and by reading on receives in full, what
   * was sent before the loop and then the packets of the log, in order and byte for byte. The read loop has worked
   * through a prefix of what the server sent, failed writes or not.
   */
  lemma ServerGetsTheLog(bot: Bot, buf: seq<byte>, up: Link, down: Link, events: seq<Event>)
    requires InStep(up) && InStep(down)
    ensures var s := Run(bot, Initial(buf, up, down), events);
      s.down.received <= s.down.sent
    ensures var s := Run(bot, Initial(buf, up, down), events);
      !s.out.failed ==>
        && s.out.link.received <= up.sent + Payloads(s.history.log)
        && Drain(Settled(s)).received == up.sent + Payloads(s.history.log)
        && Drain(Settled(s)).wire == []
  {
    hide Run, Initial, InStep, Payloads, Delivering, Drain, Settled;
    StartDelivers(buf, up, down);
    RunDelivers(bot, Initial(buf, up, down), events, up.sent);
    DeliveringDown(Run(bot, Initial(buf, up, down), events), up.sent);
    if !Run(bot, Initial(buf, up, down), events).out.failed {
      DeliveringDrains(Run(bot, Initial(buf, up, down), events), up.sent);
    }
  }

  lemma DeliveringDown(s: State, before: seq<seq<byte>>)
    requires Delivering(s, before)
    ensures s.down.received <= s.down.sent
  {
    hide Payload, Payloads;
  }

  lemma DeliveringDrains(s: State, before: seq<seq<byte>>)
    requires Delivering(s, before) && !s.out.failed
    ensures s.out.link.received <= before + Payloads(s.history.log)
    ensures Drain(Settled(s)).received == before + Payloads(s.history.log) && Drain(Settled(s)).wire == []
  {
    hide InStep, Payloads, Payload, Drain;
    assert InStep(Settled(s)) && Settled(s).sent == s.out.link.sent;
    DrainDeliversAll(Settled(s));
    InStepReceived(Settled(s));
  }

  lemma StartDelivers(buf: seq<byte>, up: Link, down: Link)
    requires InStep(up) && InStep(down)
    ensures Delivering(Initial(buf, up, down), up.sent)
  {
    hide InStep, Payload;
    assert up.sent + Payloads([]) == up.sent;
  }

  lemma InStepReceived(l: Link)
    requires InStep(l)
    ensures l.received <= l.sent
  {
  }

  /** When the main goroutine is done, the last frame is the one Logout, unless a write has failed. */
  lemma LogoutIsTheLastWord(bot: Bot, buf: seq<byte>, up: Link, down: Link, events: seq<Event>)
    requires InStep(up) && InStep(down)
    ensures var s := Run(bot, Initial(buf, up, down), events);
      && (s.main.Done? && !s.out.failed ==> EndsInLogout(s.history.log))
      && (!s.main.Done? ==> AllFromLoop(s.history.log))
  {
    StartDelivers(buf, up, down);
    RunDelivers(bot, Initial(buf, up, down), events, up.sent);
    hide Run, InStep, Payload, Consistent;
  }

  /**
   * The loop on a channel the two endpoints have opened themselves: whatever they did until then, both directions are
   * in step, and everything the client has sent since it connected reaches the server, the loop's packets last.
   */
  lemma LoopOnOpenedChannel(bot: Bot, buf: seq<byte>, opening: seq<C.Event>, events: seq<Event>)
    requires C.Run(C.Closed(), opening).phase == C.Open
    ensures var c := C.Run(C.Closed(), opening);
      var s := Run(bot, Initial(buf, C.Up(c), C.Down(c)), events);
      && s.down.received <= s.down.sent
      && (!s.out.failed ==> Drain(Settled(s)).received == c.upSent + Payloads(s.history.log))
      && (!s.out.failed && s.main.Done? ==> EndsInLogout(s.history.log))
  {
    hide Run, Initial, InStep, Payloads, Drain, Settled, EndsInLogout, AllFromLoop, C.Run, C.Closed;
    OpenedInStep(opening);
    var c := C.Run(C.Closed(), opening);
    ServerGetsTheLog(bot, buf, C.Up(c), C.Down(c), events);
    LogoutIsTheLastWord(bot, buf, C.Up(c), C.Down(c), events);
  }

  lemma OpenedInStep(opening: seq<C.Event>)
    requires C.Run(C.Closed(), opening).phase == C.Open
    ensures var c := C.Run(C.Closed(), opening);
      InStep(C.Up(c)) && InStep(C.Down(c)) && C.Up(c).sent == c.upSent
  {
    hide InStep, C.Run;
    C.RunSynchronised(C.Closed(), opening);
  }

  predicate IsSuffix(t: seq<byte>, s: seq<byte>) {
    |t| <= |s| && t == s[|s| - |t|..]
  }

  /** t can come after s when nothing is sent any more: bytes leave the stream, and none enter it. */
  predicate Silent(s: State, t: State) {
    && t.main.Done? && t.history.log == s.history.log
    && t.out.buf == s.out.buf && t.out.failed == s.out.failed
    && t.out.link.outKey == s.out.link.outKey && t.out.link.sent == s.out.link.sent
    && IsSuffix(t.out.link.wire, s.out.link.wire)
  }

  /** Once the main goroutine is done nothing is sent any more, not even part of a frame, whatever else happens. */
  lemma {:induction false} NothingAfterLogout(bot: Bot, s: State, events: seq<Event>)
    requires Orderly(s) && s.main.Done?
    ensures Silent(s, Run(bot, s, events))
    decreases events
  {
    hide Step, IsSuffix;
    if events == [] {
      SuffixOfItself(s.out.link.wire);
    } else {
      var m := Step(bot, s, events[0]);
      OrderlyStep(bot, s, events[0]);
      DoneStays(bot, s, events[0]);
      NothingAfterLogout(bot, m, events[1..]);
      SuffixOfSuffix(Run(bot, m, events[1..]).out.link.wire, m.out.link.wire, s.out.link.wire);
    }
  }

  lemma SuffixOfItself(s: seq<byte>)
    ensures IsSuffix(s, s)
  {
  }

  lemma SuffixOfSuffix(r: seq<byte>, s: seq<byte>, t: seq<byte>)
    requires IsSuffix(r, s) && IsSuffix(s, t)
    ensures IsSuffix(r, t)
  {
    assert t[|t| - |s|..][|s| - |r|..] == t[|t| - |r|..];
  }

  lemma ReceiveTakesFromFront(l: Link)
    ensures var t := Receive(l); IsSuffix(t.wire, l.wire) && t.outKey == l.outKey && t.sent == l.sent
  {
    hide Decrypted, Advance, Le16;
    SuffixOfItself(l.wire);
  }

  lemma DoneStays(bot: Bot, s: State, e: Event)
    requires Orderly(s) && s.main.Done?
    ensures Silent(s, Step(bot, s, e))
  {
    hide IsSuffix, Receive, Transmit, ActionStep, ReadStep, MainStep;
    OnlySendersTouch(bot, s, e);
    ReceiveTakesFromFront(s.out.link);
    SuffixOfItself(s.out.link.wire);
    match e {
      case ActionSteps(c) => ActionFrame(bot, s, c);
      case ClientReads => ReadLoopFrame(bot, s);
      case MainSteps(ok, cut) => MainFrame(s, ok, cut); DoneIsLast(s, ok, cut);
      case _ =>
    }
  }

  lemma DoneIsLast(s: State, ok: bool, cut: nat)
    requires s.main.Done?
    ensures MainStep(s, ok, cut) == s
  {
  }

  /** The bytes tell the packets: no two logs look alike to the server. */
  lemma LogsAreDistinguishable(l1: seq<Packet>, l2: seq<Packet>)
    requires Payloads(l1) == Payloads(l2)
    ensures l1 == l2
  {
    hide Payload;
    assert |l1| == |Payloads(l1)| == |Payloads(l2)| == |l2|;
    forall i | 0 <= i < |l1| ensures l1[i] == l2[i] {
      assert Payloads(l1)[i] == Payloads(l2)[i];
      PayloadInjective(l1[i], l2[i]);
    }
  }
}
