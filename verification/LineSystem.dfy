/** The whole system: the program, a line that can lose what is on it, and the devices
    with their event logs. */
module LineSystem {
  import opened LibGate
  import opened GateState
  import opened AdTarget
  import opened AdCmd
  import opened LogRing
  import opened GpLayer
  import opened Housekeeping

  // ----- a device's log -----

  type Slots = s: seq<Rec> | |s| == SLOTS witness seq<Rec>(SLOTS, _ => ZERO_REC)

  /** The ring and its two pointers as the device holds them. The other fields are
      histories: every record ever logged, the number of the oldest one that was still
      there at the start, how far `down` has moved, and the numbers of the records the
      program has run through its event loop, in that order. */
  datatype Log = Log(slots: Slots, up: Word, down: Word,
                     all: seq<Rec>, first: nat, downNo: nat, seen: seq<nat>)

  const NO_LOG: Log := Log(seq<Rec>(SLOTS, _ => ZERO_REC), 0, 0, [], 0, 0, [])

  type Logs = s: seq<Log> | |s| == 256 witness seq(256, _ => NO_LOG)

  function NextSlot(a: Word): Word {
    if a + EVENT_SIZE >= MAX_LOG_BOUND then 0 else a + EVENT_SIZE
  }

  /** A device does not overrun `down`. */
  predicate Room(l: Log) {
    NextSlot(l.up) != l.down
  }

  function Append(l: Log, r: Rec): Log
    requires l.up / EVENT_SIZE < SLOTS
  {
    l.(slots := l.slots[l.up / EVENT_SIZE := r], up := NextSlot(l.up), all := l.all + [r])
  }

  /** How many records lie from address `down` to address `a`, going round. */
  function Ahead(down: Word, a: Word): nat {
    if a >= down then (a - down) / EVENT_SIZE else Max(a + MAX_LOG_BOUND - down, 0) / EVENT_SIZE
  }

  function MoveDown(l: Log, a: Word): Log {
    l.(down := a, downNo := l.downNo + Ahead(l.down, a))
  }

  // ----- what a device answers -----

  /** NACK, or an EEPROM or clock error. */
  predicate Refusal(r: Reply) {
    IsReplyFrame(r) && !IsAck(r)
  }

  /** The device reads commands from their bytes. It answers reads with data or a refusal,
      never with ACK; an acknowledged write has been applied. Replies to commands that are
      not about the log are otherwise arbitrary. */
  predicate Answers(l: Log, z: Cmd, r: Reply, applied: bool) {
    && r.src == z.dst
    && (z.cmdN == CMD_GET ==> !IsAck(r))
    && (AsksLogPointers(z.cmdN, z.data) ==>
          Refusal(r) || (!IsReplyFrame(r) && r.len == 4 && r.buff[..4] == ToBe16(l.up) + ToBe16(l.down)))
    && (AsksLogData(z.cmdN, z.data) && Begin(z.data) + z.data[2] <= MAX_LOG_BOUND && z.data[2] <= CMD_BUFF_LENGTH ==>
          Refusal(r) || (!IsReplyFrame(r) && r.len == z.data[2] &&
                         r.buff[..z.data[2]] == Layout(l.slots)[Begin(z.data)..Begin(z.data) + z.data[2]]))
    && (SetsDown(z.cmdN, z.data) ==> IsReplyFrame(r) && (IsAck(r) ==> applied))
    && (!SetsDown(z.cmdN, z.data) ==> !applied)
  }

  // ----- the system -----

  datatype Packet = Request(z: Cmd) | Answer(r: Reply)

  datatype Sys = Sys(g: Gate, line: seq<Packet>, logs: Logs)

  /** What the application and the periodic timers ask for. */
  datatype Call =
    | CallAddCid(t: Token)
    | CallAddOne(d: DevId, t: Token)
    | CallAddToken(cid: nat, attr: Byte, mask: Byte)
    | CallReload(d: DevId, order: seq<nat>)
    | CallCommand(z: Cmd)
    | CallLogScan
    | CallEnableAll
    | CallMaxDev(n: DevId)
    | CallClock(date: Rec)

  datatype Step =
    | LogEvent(d: DevId, rec: Rec)        // a device logs a record
    | Answered(r: Reply, applied: bool)   // the request arrives and is answered
    | Lose                                // what is on the line is lost
    | Deliver(missing: nat)               // the answer arrives, taken some bytes short
    | Reject                              // the answer arrives with a bad checksum or source
    | Part                                // a first part of the answer arrives
    | Tick(due: bool)                     // the timer fires
    | App(call: Call)

  predicate CallOk(g: Gate, c: Call) {
    match c
    case CallAddCid(t) => t.addr < U16
    case CallReload(_, order) => forall c :: c in order ==> c in g.db.token
    case CallCommand(z) => Queueable(z) && z.target != TARGET_SET_TOKEN
    case _ => true
  }

  /** Which steps can happen. An answer arrives before the timeout or not at all. The
      receiver can take a data reply short, never beyond its id_ctrl. */
  predicate Enabled(s: Sys, st: Step) {
    match st
    case LogEvent(d, r) => s.logs[d].up / EVENT_SIZE < SLOTS && Room(s.logs[d])
    case Answered(r, applied) =>
      s.line != [] && s.line[0].Request? && Answers(s.logs[s.line[0].z.dst], s.line[0].z, r, applied)
    case Lose => s.line != []
    case Deliver(missing) =>
      s.line != [] && s.line[0].Answer? &&
      (missing == 0 || (!IsReplyFrame(s.line[0].r) && missing <= s.line[0].r.len + 4))
    case Reject => s.line != [] && s.line[0].Answer?
    case Part => s.line != [] && s.line[0].Answer?
    case Tick(due) => due ==> s.line == []
    case App(c) => CallOk(s.g, c)
  }

  /** The requests written to the line between two states of the program. */
  function Sent(g: Gate, g': Gate): seq<Packet> {
    if |g'.wire| <= |g.wire| then []
    else seq(|g'.wire| - |g.wire|, i requires 0 <= i < |g'.wire| - |g.wire| => Request(g'.wire[|g.wire| + i]))
  }

  function Range(a: nat, n: nat): (s: seq<nat>)
    ensures |s| == n && forall i :: 0 <= i < n ==> s[i] == a + i
  {
    seq(n, i requires 0 <= i < n => a + i)
  }

  /** The log history after the program has run further records of this device, which it
      had asked for at address `from`. */
  function NoteSeen(l: Log, from: Word, before: Dev, after: Dev): Log {
    if |after.stream| <= |before.stream| then l
    else l.(seen := l.seen + Range(l.downNo + Ahead(l.down, from), |after.stream| - |before.stream|))
  }

  function AppStep(g: Gate, c: Call): Gate
    requires CallOk(g, c)
  {
    match c
    case CallAddCid(t) => AddCidToAll(g, t).0
    case CallAddOne(d, t) => AddCid(g, d, t).0
    case CallAddToken(cid, attr, mask) => AddTokenToAll(g, cid, attr, mask).0
    case CallReload(d, order) => Reload(g, d, order)
    case CallCommand(z) => Queue(g, [z])
    case CallLogScan => LogTick(g, 1)
    case CallEnableAll => EnableAll(g)
    case CallMaxDev(n) => g.(maxDevN := n)
    case CallClock(date) => g.(date := date)
  }

  /** The system once the program has gone from `s.g` to `g'` on the answer it got. */
  function AfterAnswer(s: Sys, g': Gate): Sys
    requires s.line != []
  {
    var d := s.g.dev;
    Sys(g', s.line[1..] + Sent(s.g, g'),
        s.logs[d := NoteSeen(s.logs[d], s.g.devices[d].boundDown, s.g.devices[d], g'.devices[d])])
  }

  /** The answer on the line reaches `gp_receiv`. */
  function Delivered(s: Sys, r: Reply): Sys
    requires s.line != []
  {
    AfterAnswer(s, FrameIn(s.g, r))
  }

  function Apply(s: Sys, st: Step): Sys
    requires Enabled(s, st)
  {
    match st
    case LogEvent(d, r) => s.(logs := s.logs[d := Append(s.logs[d], r)])
    case Answered(r, applied) =>
      var z := s.line[0].z;
      var l := s.logs[z.dst];
      Sys(s.g, [Answer(r)] + s.line[1..],
          s.logs[z.dst := if applied then MoveDown(l, FromBe16(z.data, 5)) else l])
    case Lose => s.(line := s.line[1..])
    case Deliver(missing) => Delivered(s, Cut(s.line[0].r, missing))
    case Reject => s.(g := ReadStart(s.g), line := s.line[1..])
    case Part => s.(g := ReadStart(s.g))
    case Tick(due) => s.(g := Timer(s.g, due), line := s.line + Sent(s.g, Timer(s.g, due)))
    case App(c) => s.(g := AppStep(s.g, c), line := s.line + Sent(s.g, AppStep(s.g, c)))
  }

  /** A run is a sequence of steps each of which can happen. */
  ghost predicate Legal(s: Sys, steps: seq<Step>)
    decreases steps
  {
    steps == [] || (Enabled(s, steps[0]) && Legal(Apply(s, steps[0]), steps[1..]))
  }

  ghost function Run(s: Sys, steps: seq<Step>): Sys
    requires Legal(s, steps)
    decreases steps
  {
    if steps == [] then s else Run(Apply(s, steps[0]), steps[1..])
  }

  // ----- starting states -----

  /** The ring agrees with its history. */
  ghost predicate RingOk(l: Log) {
    match l
    case Log(slots, up, down, all, first, downNo, _) =>
      && first <= downNo <= |all| < downNo + SLOTS
      && up == Phys(|all|) && down == Phys(downNo)
      && (forall i :: downNo <= i < |all| ==> slots[i % SLOTS] == all[i])
  }

  /** After `gp_init`, with any database and seed: nothing sent or queued, and devices with
      any logs. */
  ghost predicate Init(s: Sys) {
    && Fresh(s.g) && s.line == []
    && (forall d: DevId :: RingOk(s.logs[d]) && s.logs[d].seen == [] && s.logs[d].first == s.logs[d].downNo)
  }
}
