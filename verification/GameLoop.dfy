/**
 * The game loop as interleaved steps (internal/client/client.go:549-945). Three goroutines (the main one, the
 * action loop and the read loop), the cancelling context and the server share one state; an event lets one of
 * them take its next step. Sleeps and blocking operations are points where the others may run; what a random
 * number generator, a clock or a skill cooldown decides comes with the event.
 */
module GameLoop {
  import opened Bytes
  import opened RollingXor
  import opened Framing
  import opened L = Link
  import opened Packets
  import opened T = TargetRing
  import ItemList

  const OP_DIE: byte := 0x00
  const OP_NPC_INFO: byte := 0x0c
  const OP_TELEPORT: byte := 0x22
  const OP_CHAR_INFO: byte := 0x31
  const OP_ATTACK: byte := 0x33
  const OP_MAGIC_SKILL_USE: byte := 0x48

  const WIND_STRIKE: u32 := 1177
  const AUTO_PICKUP: Packet := ActionUse(5, false, false)
  const SOCIAL_ACTIONS: seq<int32> := [12, 13, 16, 17, 24, 31]
  const CHANNELS: seq<int32> := [0, 1, 8]

  /** What stays fixed during the loop. */
  datatype Bot = Bot(self: u32, stationary: bool, mystic: bool)

  // ---- The state ----

  datatype Flags = Flags(cancelled: bool, pendingAppear: bool, converged: bool, dead: bool, signal: bool)

  datatype Known = Known(ring: Ring, items: seq<u32>)

  /** gsWriter's buffer and gsCrypt's outgoing key (in the link), the stream, and whether a write has failed. */
  datatype Outbound = Outbound(buf: seq<byte>, link: Link, failed: bool)

  /** Encoding, encrypting and writing are separate steps; the last stage remembers the key it started from. */
  datatype Stage = Fresh | Encoded | Enciphered(key: Key)

  datatype Pc =
    | Top                                     // client.go:584, ackTeleport
    | Delay                                   // 588-591
    | CheckDead                               // 595
    | Taunt                                   // 666-683
    | Choose                                  // 611-623
    | Chosen(choice: nat)                     // 626-632
    | Act(choice: nat)                        // 634-645
    | RoamSleep(x: int32, y: int32, z: int32) // 708-717
    | CombatTop(left: nat)                    // 752-757
    | PickTarget(left: nat)                   // 759-762
    | Strike(left: nat, target: u32, x: int32, y: int32, z: int32)  // 800-811
    | DrainSignal(left: nat)                  // 772-775
    | AwaitSignal(left: nat)                  // 776-781
    | Stopped

  /** Where a send goes on to. */
  type Resume = pc: Pc | pc.Top? || pc.Delay? || pc.RoamSleep? || pc.Strike? || pc.DrainSignal? || pc.Stopped?
    witness Top

  datatype Action = Running(pc: Pc) | Sending(packet: Packet, stage: Stage, next: Resume)

  datatype Main = WaitCancel | WaitLoop | LoggingOut(stage: Stage) | Done

  datatype ReadLoop = Reading | MidTeleport | Ended

  /** What was written, the teleports handled, and the count of the latter at each successful swap. */
  datatype History = History(log: seq<Packet>, teleports: nat, swaps: seq<nat>)

  datatype State = State(flags: Flags, known: Known, out: Outbound, down: Link,
                         action: Action, main: Main, read: ReadLoop, history: History)

  /** What the outside decides in a step of the action loop. */
  datatype Choice = Choice(yes: bool, dice: nat, packet: Packet)

  datatype Event =
    | Cancel
    | ServerSends(payload: seq<byte>)
    | ServerReads
    | ClientReads
    | ReadFails
    | ReadResumes
    | ActionSteps(choice: Choice)
    | MainSteps(ok: bool, cut: nat)

  function Initial(buf: seq<byte>, up: Link, down: Link): State {
    State(Flags(false, false, false, false, false), Known(EMPTY, []), Outbound(buf, up, false), down,
          Running(Top), WaitCancel, Reading, History([], 0, []))
  }

  // ---- Sending, in three steps ----

  /** A buffer whose beginning has been overwritten. */
  function Overwritten(buf: seq<byte>, s: seq<byte>): seq<byte> {
    s + (if |s| < |buf| then buf[|s|..] else [])
  }

  function Front(buf: seq<byte>, n: nat): seq<byte> {
    if n <= |buf| then buf[..n] else buf
  }

  /** The three bytes a MagicSkillUse leaves as they were. */
  function Filled(p: Packet, buf: seq<byte>): Packet {
    if p.MagicSkillUse? && |buf| >= 13 then p.(left := buf[10..13]) else p
  }

  function Encode(o: Outbound, p: Packet): Outbound {
    o.(buf := Overwritten(o.buf, Payload(p)))
  }

  function Encipher(o: Outbound, n: nat): Outbound {
    o.(buf := Overwritten(o.buf, Encrypted(o.link.outKey, Front(o.buf, n))),
       link := o.link.(outKey := Advance(o.link.outKey, n)))
  }

  /** A write that fails may have sent any part of the frame. */
  function Write(o: Outbound, payload: seq<byte>, ok: bool, cut: nat): Outbound {
    var image := Front(o.buf, |payload|);
    var frame := if Fits(image) then Frame(image) else [];
    if ok && Fits(image) then o.(link := o.link.(wire := o.link.wire + frame, sent := o.link.sent + [payload]))
    else o.(failed := true, link := o.link.(wire := o.link.wire + Front(frame, cut)))
  }

  // ---- The action loop ----

  predicate IsPhrase(p: Packet, channels: seq<int32>) {
    p.Say2? && |p.text| <= 124 && p.chatType in channels
  }

  /** The dice of doAction, before its fail-safes: a bot that holds its position fights instead of roaming. */
  function FirstChoice(holds: bool, dice: nat, override: bool): nat {
    if holds then (if dice == 0 then 3 else dice)
    else if dice != 0 && override then 0
    else dice
  }

  /** The fail-safes: nothing to equip, no one to attack. */
  function Fallback(choice: nat, k: Known): nat {
    if choice == 2 && k.items == [] then 1
    else if choice == 3 && k.ring.npcs == [] then 0
    else choice
  }

  function Goto(s: State, pc: Pc): State {
    s.(action := Running(pc))
  }

  function Begin(s: State, p: Packet, next: Resume): State {
    s.(action := Sending(p, Fresh, next))
  }

  /** A choice that does not fit the place it is made at leaves everything as it is. */
  function Think(bot: Bot, s: State, pc: Pc, c: Choice): State {
    match pc
    case Top =>
      if s.flags.pendingAppear then
        Begin(s.(flags := s.flags.(pendingAppear := false),
                 history := s.history.(swaps := s.history.swaps + [s.history.teleports])), Appearing, Delay)
      else Goto(s, Delay)
    case Delay => if c.yes then Goto(s, CheckDead) else if s.flags.cancelled then Goto(s, Stopped) else s
    case CheckDead => Goto(s, if s.flags.dead then Taunt else Choose)
    case Taunt =>
      if !c.yes then Goto(s, Top)
      else if IsPhrase(c.packet, [0]) then Begin(s, c.packet, Top)
      else s
    case Choose =>
      if c.dice < 5 then Goto(s, Chosen(FirstChoice(bot.stationary || s.flags.converged, c.dice, c.yes))) else s
    case Chosen(k) => Goto(s, Act(Fallback(k, s.known)))
    case Act(k) => Dispatch(s, k, c)
    case RoamSleep(x, y, z) =>
      if c.yes then Begin(s, ValidatePosition(x, y, z, 0), Top)
      else if s.flags.cancelled then Goto(s, Stopped)
      else s
    case CombatTop(n) =>
      if n == 0 then Begin(s, AUTO_PICKUP, Top)
      else if s.flags.cancelled then Goto(s, Stopped)
      else Goto(s, PickTarget(n))
    case PickTarget(n) =>
      if s.known.ring.npcs == [] then Goto(s, Top)
      else if c.packet.Action? && c.packet.objectId in s.known.ring.npcs && c.packet.actionByte == 0 then
        Begin(s, c.packet, Strike(n, c.packet.objectId, c.packet.x, c.packet.y, c.packet.z))
      else s
    case Strike(n, target, x, y, z) =>
      // A mystic casts when the spell is ready; anyone else hits.
      if bot.mystic && c.yes then Begin(s, MagicSkillUse(WIND_STRIKE, false, false, [0, 0, 0]), DrainSignal(n))
      else Begin(s, Attack(target, x, y, z, 0), DrainSignal(n))
    case DrainSignal(n) => Goto(s.(flags := s.flags.(signal := false)), AwaitSignal(n))
    case AwaitSignal(n) =>
      if c.dice == 0 then (if s.flags.cancelled then Goto(s, Stopped) else s)
      else if c.dice == 1 then
        (if s.flags.signal then Goto(s.(flags := s.flags.(signal := false)), CombatTop(Less(n))) else s)
      else Goto(s, CombatTop(Less(n)))
    case Stopped => s
  }

  function Less(n: nat): nat {
    if n == 0 then 0 else n - 1
  }

  function Dispatch(s: State, k: nat, c: Choice): State {
    if k == 0 then
      if c.packet.MoveToLocation? && c.packet.tz == c.packet.oz
      then Begin(s, c.packet, RoamSleep(c.packet.tx, c.packet.ty, c.packet.tz)) else s
    else if k == 1 then
      if c.packet.ActionUse? && c.packet.actionId in SOCIAL_ACTIONS && !c.packet.ctrl && !c.packet.shift
      then Begin(s, c.packet, Top) else s
    else if k == 2 then
      if s.known.items == [] then Goto(s, Top)
      else if c.packet.UseItem? && c.packet.objectId in s.known.items && !c.packet.ctrl then Begin(s, c.packet, Top)
      else s
    else if k == 3 then
      if c.dice < 4 then Goto(s, CombatTop(2 + c.dice)) else s
    else if k == 4 then
      if IsPhrase(c.packet, CHANNELS) then Begin(s, c.packet, Top) else s
    else Goto(s, Top)
  }

  function ActionStep(bot: Bot, s: State, c: Choice): State {
    match s.action
    case Running(pc) => Think(bot, s, pc, c)
    case Sending(p, stage, next) => SendStep(s, p, stage, next, c)
  }

  /** One stage further; a failed write ends the loop. */
  function SendStep(s: State, p: Packet, stage: Stage, next: Resume, c: Choice): State {
    match stage
    case Fresh =>
      var q := Filled(p, s.out.buf);
      s.(out := Encode(s.out, q), action := Sending(q, Encoded, next))
    case Encoded =>
      s.(out := Encipher(s.out, |Payload(p)|), action := Sending(p, Enciphered(s.out.link.outKey), next))
    case Enciphered(_) =>
      var after := Write(s.out, Payload(p), c.yes, c.dice);
      if Written(s.out, after) then
        s.(out := after, action := Running(next), history := s.history.(log := s.history.log + [p]))
      else s.(out := after, action := Running(Stopped))
  }

  /** Whether a write went through. */
  predicate Written(before: Outbound, after: Outbound) {
    |after.link.sent| > |before.link.sent|
  }

  // ---- The main goroutine ----

  function MainStep(s: State, ok: bool, cut: nat): State {
    match s.main
    case WaitCancel => if s.flags.cancelled then s.(main := WaitLoop) else s
    case WaitLoop => if s.action == Running(Stopped) then s.(main := LoggingOut(Fresh)) else s
    case LoggingOut(stage) => LogoutStep(s, stage, ok, cut)
    case Done => s
  }

  function LogoutStep(s: State, stage: Stage, ok: bool, cut: nat): State {
    match stage
    case Fresh => s.(out := Encode(s.out, Logout), main := LoggingOut(Encoded))
    case Encoded =>
      s.(out := Encipher(s.out, |Payload(Logout)|), main := LoggingOut(Enciphered(s.out.link.outKey)))
    case Enciphered(_) =>
      var after := Write(s.out, Payload(Logout), ok, cut);
      if Written(s.out, after) then
        s.(out := after, main := Done, history := s.history.(log := s.history.log + [Logout]))
      else s.(out := after, main := Done)
  }

  // ---- The read loop ----

  predicate IsSelf(bot: Bot, data: seq<byte>) {
    |data| >= 5 && Le32(data, 1) == bot.self
  }

  function AddTo(k: Known, self: u32, id: u32): Known {
    if k.ring.next < CAPACITY then k.(ring := Add(k.ring, self, id)) else k
  }

  /** What the read loop learns from a packet, before it moves on. */
  datatype Lesson = Lesson(flags: Flags, known: Known, teleport: bool)

  function Learn(bot: Bot, flags: Flags, known: Known, data: seq<byte>): Lesson {
    var same := Lesson(flags, known, false);
    if data == [] then same
    else if data[0] == OP_TELEPORT then Lesson(flags.(pendingAppear := true), known, true)
    else if data[0] == OP_DIE then
      if IsSelf(bot, data) then same.(flags := flags.(dead := true)) else same
    else if data[0] == ItemList.OP_ITEM_LIST then
      if ItemList.Extract(data) != [] then same.(known := known.(items := ItemList.Extract(data))) else same
    else if data[0] == OP_NPC_INFO then
      if |data| >= 5 then same.(known := AddTo(known, bot.self, Le32(data, 1))) else same
    else if data[0] == OP_CHAR_INFO then
      if |data| >= 22 then same.(known := AddTo(known, bot.self, Le32(data, 18))) else same
    else if data[0] == OP_ATTACK || data[0] == OP_MAGIC_SKILL_USE then
      if IsSelf(bot, data) then same.(flags := flags.(signal := true)) else same
    else same
  }

  /** A teleport's two flags are set one after the other. */
  function Handle(bot: Bot, s: State, data: seq<byte>): State {
    var l := Learn(bot, s.flags, s.known, data);
    if l.teleport then
      s.(flags := l.flags, known := l.known, read := MidTeleport,
         history := s.history.(teleports := s.history.teleports + 1))
    else s.(flags := l.flags, known := l.known)
  }

  function ReadStep(bot: Bot, s: State): State {
    if s.read != Reading then s
    else
      match ReadFrame(s.down.wire)
      case Packet(cipher, _) => Handle(bot, s.(down := Receive(s.down)), Decrypted(s.down.inKey, cipher))
      case Incomplete => s
      case BadSize => s.(read := Ended)
  }

  // ---- Runs ----

  function Step(bot: Bot, s: State, e: Event): State {
    match e
    case Cancel => s.(flags := s.flags.(cancelled := true))
    case ServerSends(payload) => if Fits(payload) then s.(down := Transmit(s.down, payload)) else s
    case ServerReads => s.(out := s.out.(link := Receive(s.out.link)))
    case ClientReads => ReadStep(bot, s)
    case ReadFails => if s.read == Reading then s.(read := Ended) else s
    case ReadResumes =>
      if s.read == MidTeleport then s.(flags := s.flags.(converged := true), read := Reading) else s
    case ActionSteps(c) => ActionStep(bot, s, c)
    case MainSteps(ok, cut) => MainStep(s, ok, cut)
  }

  function Run(bot: Bot, s: State, events: seq<Event>): State
    decreases events
  {
    if events == [] then s else Run(bot, Step(bot, s, events[0]), events[1..])
  }
}
