/** What the driver puts on the line and when (src/gp_layer.c), said over the line, the queues
    and the device table alone. */
module DriverLaws {
  import opened LibGate
  import opened GateState
  import opened GpQueue
  import opened AdTarget
  import opened CardBytes
  import opened CardPoll
  import opened LogRing
  import opened GpProcessor
  import opened GpLayer
  import opened LineSystem
  import opened CardRuns
  import Receiver
  import Reads
  import opened RoundRobin

  // ----- the next command -----

  /** Between two states the next command, if any waits, has gone from the queues to the line:
      the front of the first class, or of the second when that is empty. */
  predicate NextSent(q: Queues, wire: seq<Cmd>, g': Gate) {
    if q.first != [] then g'.wire == wire + [q.first[0]] && g'.q == Queues(q.first[1..], q.second)
    else if q.second != [] then g'.wire == wire + [q.second[0]] && g'.q == Queues([], q.second[1..])
    else g'.wire == wire && g'.q == q
  }

  lemma PutSendsNext(g: Gate)
    ensures NextSent(g.q, g.wire, PutCmd(g))
  {
  }

  // ----- a due timer -----

  /** A device's unanswered requests once the outstanding one counts as missed. */
  function Missed(g: Gate, d: DevId): nat {
    g.devices[d].timeouts + (if g.isExpected && d == g.dev then 1 else 0)
  }

  predicate OverLimit(g: Gate, d: DevId) {
    Missed(g, d) > g.maxTimeouts
  }

  /** The device an idle driver polls next: the first one behind the last polled whose missed
      answers are within the limit. */
  ghost predicate NextPolled(g: Gate, p: DevId) {
    g.idlePos < p <= g.maxDevN && !OverLimit(g, p) && forall d: DevId :: g.idlePos < d < p ==> OverLimit(g, d)
  }

  /** The request for a device's card register: six bytes from 0x0C of memory 0xD0. */
  predicate AsksCard(z: Cmd, p: DevId) {
    && z.dst == p && z.cmdN == 0x04 && z.data == [0x00, 0xD0, 6, 0x00, 0x0C]
    && z.target == TARGET_GET_CID && z.handler == PollHandler && z.polling
  }

  /** With nothing waiting: the next device is polled, or the round is over. */
  ghost predicate Polled(g: Gate, g': Gate) {
    || (g'.wire == g.wire && g'.idlePos == 0 && forall d: DevId :: g.idlePos < d <= g.maxDevN ==> OverLimit(g, d))
    || (|g'.wire| == |g.wire| + 1 && g'.wire[..|g.wire|] == g.wire && NextPolled(g, g'.idlePos)
        && AsksCard(g'.wire[|g.wire|], g'.idlePos))
  }

  /** A due timer counts the missed answer, and sends the next waiting command; only with none
      waiting does it poll. Devices passed over are inactive afterwards. */
  ghost predicate TimerMeans(g: Gate, g': Gate) {
    && (forall d: DevId :: g'.devices[d].timeouts == Missed(g, d))
    && (if g.q.first != [] || g.q.second != [] then
          NextSent(g.q, g.wire, g') && g'.idlePos == g.idlePos
          && (forall d: DevId :: g'.devices[d].active == g.devices[d].active)
        else
          Polled(g, g') && g'.q == g.q
          && (forall d: DevId :: g'.devices[d].active == (g.devices[d].active && !PassedOver(g, g', d))))
    && (g'.wire == g.wire ==> !g'.isExpected)
  }

  predicate PassedOver(g: Gate, g': Gate, d: DevId) {
    g.idlePos < d <= g.maxDevN && OverLimit(g, d) && (g'.idlePos == 0 || d < g'.idlePos)
  }

  lemma ExpireCounts(g: Gate)
    ensures var g1 := Expire(g);
            && !g1.isExpected && g1.q == g.q && g1.wire == g.wire && g1.idlePos == g.idlePos
            && g1.maxDevN == g.maxDevN && g1.maxTimeouts == g.maxTimeouts
            && (forall d: DevId :: g1.devices[d].timeouts == Missed(g, d)
                                && g1.devices[d].active == g.devices[d].active)
  {
  }

  lemma IdlePolls(g: Gate, g1: Gate)
    requires g1 == Expire(g) && Empty(g.q)
    ensures var g' := SendIdle(g1);
            && Polled(g, g') && g'.q == g.q && (g'.wire == g.wire ==> !g'.isExpected)
            && (forall d: DevId :: g'.devices[d].timeouts == Missed(g, d)
                                && g'.devices[d].active == (g.devices[d].active && !PassedOver(g, g', d)))
  {
    ExpireCounts(g);
    ScanMeans(g1.devices, g1.idlePos, g1.maxDevN, g1.maxTimeouts);
    ScanPolls(g, g1, IdleScan(g1.devices, g1.idlePos, g1.maxDevN, g1.maxTimeouts).2);
  }

  lemma ScanPolls(g: Gate, g1: Gate, found: bool)
    requires g1 == Expire(g) && Empty(g.q)
    requires found == IdleScan(g1.devices, g1.idlePos, g1.maxDevN, g1.maxTimeouts).2
    requires var (ds, p, found) := IdleScan(g1.devices, g1.idlePos, g1.maxDevN, g1.maxTimeouts);
             && (found ==> g1.idlePos < p <= g1.maxDevN && g1.devices[p].timeouts <= g1.maxTimeouts)
             && (!found ==> p == 0)
             && var last := if found then p else Max(g1.maxDevN, g1.idlePos) + 1;
             && (forall d :: g1.idlePos < d < last ==> g1.devices[d].timeouts > g1.maxTimeouts)
             && (forall d: DevId ::
                   ds[d] == if g1.idlePos < d < last then g1.devices[d].(active := false) else g1.devices[d])
    ensures var g' := SendIdle(g1);
            && Polled(g, g') && g'.q == g.q && (g'.wire == g.wire ==> !g'.isExpected)
            && (forall d: DevId :: g'.devices[d].timeouts == Missed(g, d)
                                && g'.devices[d].active == (g.devices[d].active && !PassedOver(g, g', d)))
  {
    ExpireCounts(g);
  }

  /** Over every run, and so in every state. */
  lemma TimerSends(s: Sys)
    requires Enabled(s, Tick(true))
    ensures TimerMeans(s.g, Apply(s, Tick(true)).g)
    ensures forall z :: Apply(s, Tick(true)).g.wire == s.g.wire + [z] ==> Apply(s, Tick(true)).line == [Request(z)]
  {
    var g1 := Expire(s.g);
    ExpireCounts(s.g);
    if Empty(s.g.q) {
      IdlePolls(s.g, g1);
    } else {
      PutSendsNext(g1);
    }
  }

  /** As many due timers, each with its request lost. */
  function TimersAndLosses(n: nat): seq<Step> {
    if n == 0 then [] else [Tick(true), Lose] + TimersAndLosses(n - 1)
  }

  /** With nothing added and not one answer, as many due timers as commands wait send them all,
      the first class in order and then the second. */
  lemma {:induction false} TimersEmptyQueue(s: Sys, n: nat)
    requires s.line == [] && n == |s.g.q.first| + |s.g.q.second|
    ensures Legal(s, TimersAndLosses(n))
    ensures var g' := LineSystem.Run(s, TimersAndLosses(n)).g;
            Empty(g'.q) && g'.wire == s.g.wire + s.g.q.first + s.g.q.second
    decreases n
  {
    if n > 0 {
      TimerAndLoss(s);
      var s2 := Apply(Apply(s, Tick(true)), Lose);
      TimersEmptyQueue(s2, n - 1);
      RunTwo(s, Tick(true), Lose, TimersAndLosses(n - 1));
    }
  }

  lemma TimerAndLoss(s: Sys)
    requires s.line == [] && !Empty(s.g.q)
    ensures Enabled(s, Tick(true)) && Enabled(Apply(s, Tick(true)), Lose)
    ensures var s2 := Apply(Apply(s, Tick(true)), Lose);
            && s2.line == [] && |s2.g.q.first| + |s2.g.q.second| == |s.g.q.first| + |s.g.q.second| - 1
            && s2.g.wire + s2.g.q.first + s2.g.q.second == s.g.wire + s.g.q.first + s.g.q.second
  {
    var s1 := Apply(s, Tick(true));
    TimerSends(s);
    var z := Head(s.g.q);
    assert s1.g.wire == s.g.wire + [z] && s1.line == [Request(z)];
    InFront(s.g, s1.g);
  }

  lemma RunTwo(s: Sys, st1: Step, st2: Step, rest: seq<Step>)
    requires Enabled(s, st1) && Enabled(Apply(s, st1), st2) && Legal(Apply(Apply(s, st1), st2), rest)
    ensures Legal(s, [st1, st2] + rest)
    ensures LineSystem.Run(s, [st1, st2] + rest) == LineSystem.Run(Apply(Apply(s, st1), st2), rest)
  {
    var steps := [st1, st2] + rest;
    assert steps[1..] == [st2] + rest && steps[1..][1..] == rest;
  }

  lemma InFront(g: Gate, g': Gate)
    requires !Empty(g.q) && NextSent(g.q, g.wire, g')
    ensures g'.wire + g'.q.first + g'.q.second == g.wire + g.q.first + g.q.second
  {
    if g.q.first != [] {
      assert g.q.first == [g.q.first[0]] + g.q.first[1..];
    } else {
      assert g.q.second == [g.q.second[0]] + g.q.second[1..];
    }
  }

  // ----- what the last command sent left behind -----

  /** The handler of the next reply, said over the commands sent: that of the last one that
      brought its own, unless one from a queue has come since. */
  function HandlerFor(wire: seq<Cmd>): Handler {
    if wire == [] then NoHandler
    else
      var z := wire[|wire| - 1];
      if z.handler != NoHandler then z.handler
      else if z.queue == Short then HandlerFor(wire[..|wire| - 1])
      else NoHandler
  }

  ghost predicate FollowsWire(g: Gate) {
    && g.handler == HandlerFor(g.wire)
    && (g.wire != [] ==>
          var z := g.wire[|g.wire| - 1];
          g.target == z.target && g.bank == z.bank && g.dev == z.dst && g.polling == z.polling)
  }

  lemma SendFollows(m: Gate, z: Cmd)
    requires FollowsWire(m)
    ensures FollowsWire(Send(m, z))
  {
    assert (m.wire + [z])[..|m.wire|] == m.wire;
  }

  lemma SameFollows(g: Gate, g': Gate)
    requires FollowsWire(g) && SameSend(g, g')
    ensures FollowsWire(g')
  {
  }

  lemma PutFollows(g: Gate)
    requires FollowsWire(g)
    ensures FollowsWire(PutCmd(g))
  {
    if !Empty(g.q) {
      SendFollows(g.(q := Rest(g.q)), Head(g.q));
    }
  }

  lemma TimerFollows(g: Gate, due: bool)
    requires FollowsWire(g)
    ensures FollowsWire(Timer(g, due))
  {
    if due {
      var g1 := Expire(g);
      SameFollows(g, g1);
      if Empty(g1.q) {
        var (devices, pos, found) := IdleScan(g1.devices, g1.idlePos, g1.maxDevN, g1.maxTimeouts);
        var g2 := g1.(devices := devices, idlePos := pos);
        SameFollows(g1, g2);
        SendFollows(g2, PollCid(pos));
      } else {
        PutFollows(g1);
      }
    }
  }

  lemma LogFollows(g: Gate, r: Reply)
    requires FollowsWire(g)
    ensures FollowsWire(CbLogRead(g, r).0)
  {
    var up, down, dev, n := FromBe16(r.buff, 0), FromBe16(r.buff, 2), DevAt(g, r.src), RecordCount(r);
    if g.target == TARGET_GET_BUFF_ADDR {
      if down <= MAX_LOG_BOUND && up <= MAX_LOG_BOUND {
        var g1 := SetDev(g, r.src, dev.(boundDown := down, boundUp := up));
        SameFollows(g, g1);
        SendFollows(g1, GetBuffData(Short, r.src, down, BlockLen(up, down)));
      }
    } else if g.target == TARGET_GET_BUFF_DATA {
      var g1 := SetDev(g, r.src, AfterRecords(dev, g.db, Records(r.buff, n)));
      SameFollows(g, g1);
      SendFollows(g1, SetBuffAddrDown(Short, r.src, NextDown(Min(dev.boundDown, MAX_LOG_BOUND), n)));
    }
  }

  lemma PollFollows(g: Gate, r: Reply, cmdN: Byte)
    requires FollowsWire(g)
    ensures FollowsWire(CbGetPollResult(g, r, cmdN).0)
  {
    if g.target == TARGET_GET_CID && cmdN == CMD_GET {
      var cid := Bin2Int(r.buff, if r.len < 0 then 8 else r.len, DevAt(g, r.src).revert);
      var g1 := SetDev(g, r.src, SeeCid(DevAt(g, r.src), cid));
      SameFollows(g, g1);
      SendFollows(g1, GetRegs(Short, r.src));
    } else if g.target == TARGET_GET_REGS && cmdN == CMD_REGS {
      AdmitCardCalm(g, r.src, r.buff[20]);
      SameFollows(g, CbGetPollResult(g, r, cmdN).0);
    }
  }

  lemma FrameFollows(g: Gate, r: Reply)
    requires FollowsWire(g)
    ensures FollowsWire(FrameIn(g, r))
  {
    var g1 := ReadStart(g);
    SameFollows(g, g1);
    PutFollows(g1);
    if r.src == g.dev && (IsAck(r) || !IsReplyFrame(r)) {
      var g2 := ProcessPortInput(g1, r, CmdOf(r)).0;
      match g1.handler {
        case LogHandler => LogFollows(g1, r);
        case PollHandler => PollFollows(g1, r, CmdOf(r));
        case NoHandler => SameFollows(g1, g2);
      }
      PutFollows(g2);
    }
  }

  lemma {:induction false} RunFollows(s: Sys, steps: seq<Step>)
    requires FollowsWire(s.g) && Legal(s, steps)
    ensures FollowsWire(LineSystem.Run(s, steps).g)
    decreases steps
  {
    if steps != [] {
      StepFollows(s, steps[0]);
      RunFollows(Apply(s, steps[0]), steps[1..]);
    }
  }

  lemma StepFollows(s: Sys, st: Step)
    requires FollowsWire(s.g) && Enabled(s, st)
    ensures FollowsWire(Apply(s, st).g)
  {
    match st
    case Deliver(missing) => FrameFollows(s.g, Cut(s.line[0].r, missing));
    case Reject => SameFollows(s.g, ReadStart(s.g));
    case Part => SameFollows(s.g, ReadStart(s.g));
    case Tick(due) => TimerFollows(s.g, due);
    case App(c) =>
      CallCalm(s.g, c);
      SameFollows(s.g, AppStep(s.g, c));
    case _ =>
  }

  /** Over every run the target, bank, device and polling flag the program goes by are those of
      the last command sent, and the handler is the one the commands sent call for. */
  lemma SendStateFollowsWire(s: Sys, steps: seq<Step>)
    requires Init(s) && Legal(s, steps)
    ensures FollowsWire(LineSystem.Run(s, steps).g)
  {
    RunFollows(s, steps);
  }

  // ----- after a reply -----

  /** A read makes its device active, with no missed answers; nothing is expected or sent by
      that, and all other devices and all waiting commands stay. */
  ghost predicate Heard(g: Gate, g1: Gate) {
    && SameSend(g, g1) && !g1.isExpected && g1.db == g.db && g1.maxBound == g.maxBound
    && g1.devices[g.dev] == g.devices[g.dev].(active := true, timeouts := 0, inited := true)
    && (forall d: DevId :: d != g.dev ==> g1.devices[d] == g.devices[d])
    && g1.q.first == g.q.first && g.q.second <= g1.q.second
    && (g.devices[g.dev].inited ==> g1.q == g.q)
  }

  lemma ReadStartHeard(g: Gate)
    ensures Heard(g, ReadStart(g))
  {
    InCmdsSecond(g.q, DevInit(g.dev, g.maxBound, g.date));
  }

  /** A frame from another device only counts as a sign of life. */
  lemma ForeignIgnored(g: Gate, r: Reply)
    requires r.src != g.dev
    ensures Heard(g, FrameIn(g, r))
  {
    ReadStartHeard(g);
  }

  /** After a refusal the next waiting command is sent, whatever the handler. */
  lemma RefusalSendsNext(g: Gate, r: Reply)
    requires r.src == g.dev && Refusal(r)
    ensures exists g1 :: Heard(g, g1) && NextSent(g1.q, g.wire, FrameIn(g, r))
  {
    ReadStartHeard(g);
    PutSendsNext(ReadStart(g));
  }

  /** And after a data reply or an ACK without a handler. */
  lemma UnhandledSendsNext(g: Gate, r: Reply)
    requires r.src == g.dev && g.handler == NoHandler
    ensures exists g1 :: Heard(g, g1) && NextSent(g1.q, g.wire, FrameIn(g, r))
  {
    ReadStartHeard(g);
    PutSendsNext(ReadStart(g));
    var g2 := NoteReply(ReadStart(g), r, CmdOf(r));
    PutSendsNext(g2);
  }

  /** A card reading is followed at once by one request for the registers of its device, and
      the poll handler stays. */
  lemma CardReadingAsksRegs(g: Gate, r: Reply)
    requires r.src == g.dev && !IsReplyFrame(r)
    requires g.handler == PollHandler && g.target == TARGET_GET_CID && r.cmdN == CMD_GET
    ensures var g' := FrameIn(g, r);
            && |g'.wire| == |g.wire| + 1 && g'.wire[..|g.wire|] == g.wire && g'.handler == PollHandler
            && var z := g'.wire[|g.wire|];
               && z.dst == r.src && z.cmdN == 0x06 && z.data == [0x15, 0x28]
               && z.target == TARGET_GET_REGS && z.polling
    ensures exists g1 :: Heard(g, g1) && FrameIn(g, r).q == g1.q
  {
    ReadStartHeard(g);
  }

  /** A register reading sends nothing: what waits goes out at the next due timer. */
  lemma RegsReadingSendsNothing(g: Gate, r: Reply)
    requires r.src == g.dev && !IsReplyFrame(r)
    requires g.handler == PollHandler && g.target == TARGET_GET_REGS && r.cmdN == CMD_REGS
    ensures SameSend(g, FrameIn(g, r))
  {
    AdmitCardCalm(ReadStart(g), r.src, r.buff[20]);
  }

  /** Pointers that are equal or bad end the drain, and the next waiting command is sent. */
  lemma EmptyLogSendsNext(g: Gate, r: Reply)
    requires r.src == g.dev && !IsReplyFrame(r)
    requires g.handler == LogHandler && g.target == TARGET_GET_BUFF_ADDR
    requires FromBe16(r.buff, 0) == FromBe16(r.buff, 2) || FromBe16(r.buff, 0) > MAX_LOG_BOUND
             || FromBe16(r.buff, 2) > MAX_LOG_BOUND
    ensures exists g1 :: Heard(g, g1) && NextSent(g1.q, g.wire, FrameIn(g, r))
  {
    ReadStartHeard(g);
    PutSendsNext(LogPointers(ReadStart(g), r).0);
  }

  /** The acknowledged pointer write ends a cycle, and the next waiting command is sent. */
  lemma CycleEndSendsNext(g: Gate, r: Reply)
    requires r.src == g.dev && IsAck(r) && g.handler == LogHandler && g.target == TARGET_SET_BUFF_ADDR_DOWN
    ensures exists g1 :: Heard(g, g1) && NextSent(g1.q, g.wire, FrameIn(g, r))
  {
    ReadStartHeard(g);
    PutSendsNext(ReadStart(g));
  }

  /** A read of no bytes sends the device a soft reset, and leaves the queues to later. */
  lemma EmptyReadResets(g: Gate, st: Receiver.RecvState)
    requires Receiver.Valid(st)
    ensures var g' := Reads.OnRead(g, st, []).0;
            && |g'.wire| == |g.wire| + 1 && g'.wire[..|g.wire|] == g.wire
            && var z := g'.wire[|g.wire|]; z.dst == g.dev && z.cmdN == 0x0B && z.data == []
    ensures exists g1 :: Heard(g, g1) && Reads.OnRead(g, st, []).0.q == g1.q
  {
    ReadStartHeard(g);
  }

  // ----- periodic scans -----

  /** Requests for log pointers to the active devices up to `n`, in order. */
  function PointerRequests(g: Gate, n: nat): seq<DevId>
    requires n <= 255
  {
    if n == 0 then [] else PointerRequests(g, n - 1) + (if g.devices[n].active then [n] else [])
  }

  /** A request for a device's log pointers: four bytes from 0x08 of memory 0xD0. */
  predicate AsksPointers(z: Cmd, d: DevId) {
    && z.dst == d && z.cmdN == 0x04 && z.data == [0x00, 0xD0, 4, 0x00, 0x08] && z.queue == Second
    && z.target == TARGET_GET_BUFF_ADDR && z.handler == LogHandler
  }

  ghost predicate AsksAll(zs: seq<Cmd>, ds: seq<DevId>) {
    |zs| == |ds| && forall i :: 0 <= i < |zs| ==> AsksPointers(zs[i], ds[i])
  }

  lemma {:induction false} LogTickAsks(g: Gate, g1: Gate, d: nat)
    requires 1 <= d <= g.maxDevN + 1 && g1.devices == g.devices && g1.maxDevN == g.maxDevN
    requires g1.q.first == g.q.first && g.q.second <= g1.q.second
    requires AsksAll(g1.q.second[|g.q.second|..], PointerRequests(g, d - 1))
    ensures var g' := LogTick(g1, d);
            && g'.q.first == g.q.first && g.q.second <= g'.q.second
            && AsksAll(g'.q.second[|g.q.second|..], PointerRequests(g, g.maxDevN))
            && g' == g1.(q := g'.q)
    decreases 256 - d
  {
    if d <= g.maxDevN {
      var g2 := if DevAt(g1, d).active then Queue(g1, [GetBuffAddr(Second, d, LogHandler)]) else g1;
      if DevAt(g1, d).active {
        InCmdsSecond(g1.q, [GetBuffAddr(Second, d, LogHandler)]);
        assert g2.q.second[|g.q.second|..] == g1.q.second[|g.q.second|..] + [GetBuffAddr(Second, d, LogHandler)];
      } else {
        assert PointerRequests(g, d) == PointerRequests(g, d - 1);
      }
      LogTickAsks(g, g2, d + 1);
    }
  }

  /** A log scan queues one pointer request for each active device in range, in order, and
      changes nothing else. */
  lemma LogScanAsks(g: Gate)
    ensures var g' := AppStep(g, CallLogScan);
            && g'.q.first == g.q.first && g.q.second <= g'.q.second
            && AsksAll(g'.q.second[|g.q.second|..], PointerRequests(g, g.maxDevN))
            && g' == g.(q := g'.q)
  {
    assert g.q.second[|g.q.second|..] == [];
    LogTickAsks(g, g, 1);
  }

  /** The device scan forgets the missed answers of devices 1 to 255, and nothing else. */
  lemma DeviceScanForgets(g: Gate, d: DevId)
    ensures var g' := AppStep(g, CallEnableAll);
            && g'.devices[d] == g.devices[d].(timeouts := if d == 0 then g.devices[0].timeouts else 0)
            && g' == g.(devices := g'.devices)
  {
  }
}
