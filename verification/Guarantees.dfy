/** The guarantees over whole runs of the system after `gp_init`. Those about token records also
    need a seed that has not wrapped. */
module Guarantees {
  import opened LibGate
  import opened GateState
  import opened AdCmd
  import opened GpQueue
  import opened AdTarget
  import opened CardBytes
  import opened CardPoll
  import opened LogRing
  import opened GpProcessor
  import opened GpLayer
  import opened Housekeeping
  import opened LineSystem
  import opened LogDrain
  import opened TokenSafety
  import opened CardRuns

  // ----- no record is skipped -----

  lemma {:induction false} NoSkipPrefix(seen: seq<nat>, first: nat, k: nat)
    requires NoSkip(seen, first) && k <= |seen|
    ensures NoSkip(seen[..k], first)
    ensures k < |seen| ==> first <= seen[k] <= Reach(seen[..k], first)
    decreases |seen|
  {
    if k == |seen| {
      assert seen[..k] == seen;
    } else if k < |seen| - 1 {
      NoSkipPrefix(seen[..|seen| - 1], first, k);
      assert seen[..|seen| - 1][..k] == seen[..k];
    }
  }

  /** Over every run, with any messages lost, refused, corrupted or taken short, and records
      being logged all along: the loop has run exactly records of the device's log, the device's
      `down` has passed only records that have been through the loop, and no record was
      seen before all earlier ones had been. */
  lemma DownPassesOnlySeen(s: Sys, steps: seq<Step>, d: DevId)
    requires Init(s) && Legal(s, steps)
    ensures var e := LineSystem.Run(s, steps);
            var l, stream := e.logs[d], e.g.devices[d].stream;
            && l.down == Phys(l.downNo) && |stream| == |l.seen|
            && (forall k :: 0 <= k < |stream| ==> l.seen[k] < |l.all| && stream[k] == l.all[l.seen[k]])
            && (forall i :: l.first <= i < l.downNo ==> i in l.seen)
            && (forall k, i :: 0 <= k < |l.seen| && l.first <= i < l.seen[k] ==> i in l.seen[..k])
  {
    InitInv(s);
    RunInv(s, steps);
    var l := LineSystem.Run(s, steps).logs[d];
    forall i | l.first <= i < l.downNo
      ensures i in l.seen
    {
      NoSkipCovers(l.seen, l.first, i);
    }
    forall k, i | 0 <= k < |l.seen| && l.first <= i < l.seen[k]
      ensures i in l.seen[..k]
    {
      NoSkipPrefix(l.seen, l.first, k);
      NoSkipCovers(l.seen[..k], l.first, i);
    }
  }

  /** Over every run the events reported for a device are the records run through the loop
      with repeats of (ev_code, addr) dropped. */
  lemma EventsAreCollapsedStream(s: Sys, steps: seq<Step>, d: DevId)
    requires Init(s) && Legal(s, steps)
    ensures var dev := LineSystem.Run(s, steps).g.devices[d];
            Recs(dev.events) == Collapse(ZERO_REC, dev.stream)
  {
    InitInv(s);
    RunInv(s, steps);
    assert ReportsCollapse(LineSystem.Run(s, steps).g.devices[d]);
  }

  /** Over every run the chain is whole: inside it the handler is `cb_log_read` and
      `bound_down` is the address its block was asked from; a block request directly
      follows its device's pointer request, and a pointer write directly follows the block
      request whose records it passes. What is on the line fits the device's log: in
      particular a pointer write names the end of the records just run. */
  lemma ChainIsUnbroken(s: Sys, steps: seq<Step>)
    requires Init(s) && Legal(s, steps)
    ensures var e := LineSystem.Run(s, steps); ChainTop(e.g) && ChainUnbroken(e.g.wire) && LineOk(e)
  {
    InitInv(s);
    RunInv(s, steps);
  }

  // ----- stop and wait -----

  /** Nothing is sent, or one command is, when no answer was expected. */
  ghost predicate SentUnexpected(g: Gate, g': Gate) {
    g'.wire == g.wire || exists m, z :: g' == Send(m, z) && m.wire == g.wire && !m.isExpected
  }

  /** A step sends at most one command, only onto an empty line and only while `is_expected`
      is 0. */
  ghost predicate SendsAlone(s: Sys, s': Sys) {
    && SentUnexpected(s.g, s'.g)
    && |s'.line| <= 1 && |s.g.wire| <= |s'.g.wire| <= |s.g.wire| + 1
    && (|s'.g.wire| > |s.g.wire| ==> s'.line == [Request(s'.g.wire[|s.g.wire|])])
    && (s'.g.wire == s.g.wire ==> |s'.line| <= |s.line|)
  }

  lemma SentCount(g: Gate, g': Gate)
    requires |g.wire| <= |g'.wire|
    ensures |Sent(g, g')| == |g'.wire| - |g.wire|
    ensures |g'.wire| == |g.wire| + 1 ==> Sent(g, g') == [Request(g'.wire[|g.wire|])]
  {
  }

  lemma {:induction false} StopAndWait(s: Sys, steps: seq<Step>, st: Step)
    requires Init(s) && Legal(s, steps) && Enabled(LineSystem.Run(s, steps), st)
    ensures SendsAlone(LineSystem.Run(s, steps), Apply(LineSystem.Run(s, steps), st))
  {
    InitInv(s);
    RunInv(s, steps);
    StepSendsAlone(LineSystem.Run(s, steps), st);
  }

  lemma StepSendsAlone(s: Sys, st: Step)
    requires Inv(s) && Enabled(s, st)
    ensures SendsAlone(s, Apply(s, st))
  {
    StepInv(s, st);
    match st
    case LogEvent(_, _) =>
    case Answered(_, _) =>
    case Lose =>
    case Deliver(missing) =>
      CutAwaits(s, missing);
      DeliverInv(WithCut(s, missing));
      DeliverGrows(WithCut(s, missing));
    case Reject => ReadStartTidy(s.g);
    case Part => ReadStartTidy(s.g);
    case Tick(due) => TickGrows(s, due);
    case App(c) => CallTidy(s.g, c);
  }

  lemma {:induction false} WireGrowsBy(g: Gate, r: Reply, cmdN: Byte)
    ensures var (g', done) := ProcessPortInput(g, r, cmdN);
            |g.wire| <= |g'.wire| <= |g.wire| + (if done then 1 else 0)
  {
    if g.handler == PollHandler && g.target == TARGET_GET_REGS && cmdN == CMD_REGS {
      PollRegsTidy(g, r);
    }
  }

  lemma FrameInGrows(g: Gate, r: Reply)
    ensures |g.wire| <= |FrameIn(g, r).wire|
  {
    var g1 := ReadStart(g);
    ReadStartTidy(g);
    WireGrowsBy(g1, r, r.buff[1]);
    WireGrowsBy(g1, r, r.cmdN);
  }

  lemma PutSendsUnexpected(g: Gate, m: Gate)
    requires m.wire == g.wire && !m.isExpected
    ensures SentUnexpected(g, PutCmd(m))
  {
    if !Empty(m.q) {
      assert PutCmd(m) == Send(m.(q := Rest(m.q)), Head(m.q));
    }
  }

  lemma ProcessSendsUnexpected(g: Gate, r: Reply, cmdN: Byte)
    requires !g.isExpected
    ensures var g' := ProcessPortInput(g, r, cmdN).0;
            SentUnexpected(g, g') && (g'.wire == g.wire ==> !g'.isExpected)
  {
    if HandlerSends(g, r, cmdN) {
      HandlerSend(g, r, cmdN);
    } else {
      ProcessSends(g, r, cmdN);
      if g.handler == PollHandler && g.target == TARGET_GET_REGS && cmdN == CMD_REGS {
        PollRegsTidy(g, r);
        AdmitCardCalm(g, r.src, r.buff[20]);
      }
    }
  }

  lemma HandlerSend(g: Gate, r: Reply, cmdN: Byte)
    requires HandlerSends(g, r, cmdN)
    ensures exists m, z :: ProcessPortInput(g, r, cmdN).0 == Send(m, z)
                           && m.wire == g.wire && m.isExpected == g.isExpected
  {
    var dev, n := DevAt(g, r.src), RecordCount(r);
    if g.handler == PollHandler {
      var cid := Bin2Int(r.buff, if r.len < 0 then 8 else r.len, dev.revert);
      assert ProcessPortInput(g, r, cmdN).0 == Send(SetDev(g, r.src, SeeCid(dev, cid)), GetRegs(Short, r.src));
    } else if g.target == TARGET_GET_BUFF_DATA {
      assert LogBlock(g, r) ==
        Send(SetDev(g, r.src, AfterRecords(dev, g.db, Records(r.buff, n))),
             SetBuffAddrDown(Short, r.src, NextDown(Min(dev.boundDown, MAX_LOG_BOUND), n)));
    } else {
      var up, down := FromBe16(r.buff, 0), FromBe16(r.buff, 2);
      assert LogPointers(g, r).0 ==
        Send(SetDev(g, r.src, dev.(boundDown := down, boundUp := up)),
             GetBuffData(Short, r.src, down, BlockLen(up, down)));
    }
  }

  /** Within one call of `gp_receiv`, `gp_send` runs while `is_expected` is 0, save for the
      second of two sends. */
  lemma FrameSendsUnexpected(g: Gate, r: Reply)
    requires |FrameIn(g, r).wire| <= |g.wire| + 1
    ensures SentUnexpected(g, FrameIn(g, r))
  {
    var g1 := ReadStart(g);
    ReadStartTidy(g);
    TwoSendsOnlyOnAck(g, r);
    if r.src == g.dev {
      if IsReplyFrame(r) && !IsAck(r) {
        PutSendsUnexpected(g, g1);
      } else {
        var g2 := ProcessPortInput(g1, r, CmdOf(r)).0;
        ProcessSendsUnexpected(g1, r, CmdOf(r));
        ProcessSends(g1, r, CmdOf(r));
        if g2.wire == g1.wire {
          PutSendsUnexpected(g, g2);
        }
      }
    }
  }

  lemma TimerSendsUnexpected(g: Gate, due: bool)
    ensures SentUnexpected(g, Timer(g, due))
  {
    if due {
      var g1 := Expire(g);
      PutSendsUnexpected(g, g1);
      if Empty(g1.q) {
        var (devices, pos, found) := IdleScan(g1.devices, g1.idlePos, g1.maxDevN, g1.maxTimeouts);
        var m := g1.(devices := devices, idlePos := pos);
        assert found ==> SendIdle(g1) == Send(m, PollCid(pos));
      }
    }
  }

  lemma DeliverGrows(s: Sys)
    requires Awaiting(s) && Inv(Delivered(s, s.line[0].r))
    ensures SendsAlone(s, Delivered(s, s.line[0].r))
  {
    var g' := FrameIn(s.g, s.line[0].r);
    FrameInGrows(s.g, s.line[0].r);
    SentCount(s.g, g');
    assert s.line[1..] + Sent(s.g, g') == Sent(s.g, g');
    assert |g'.wire| <= |s.g.wire| + 1;
    FrameSendsUnexpected(s.g, s.line[0].r);
  }

  lemma TickGrows(s: Sys, due: bool)
    requires Inv(s) && Enabled(s, Tick(due))
    ensures SendsAlone(s, Apply(s, Tick(due)))
  {
    TickInv(s, due);
    TimerQuiet(s.g, due);
    TimerSendsUnexpected(s.g, due);
    var g' := Timer(s.g, due);
    assert Sends(s.g, g') || g'.wire == s.g.wire;
    SentCount(s.g, g');
    assert due ==> s.line + Sent(s.g, g') == Sent(s.g, g');
  }

  /** The handlers that answer a reply with a command of their own. */
  predicate HandlerSends(g: Gate, r: Reply, cmdN: Byte) {
    || (g.handler == LogHandler && g.target == TARGET_GET_BUFF_DATA)
    || (g.handler == LogHandler && g.target == TARGET_GET_BUFF_ADDR &&
          var up, down := FromBe16(r.buff, 0), FromBe16(r.buff, 2);
          down <= MAX_LOG_BOUND && up <= MAX_LOG_BOUND && BlockLen(up, down) != 0)
    || (g.handler == PollHandler && g.target == TARGET_GET_CID && cmdN == CMD_GET)
  }

  lemma ProcessSends(g: Gate, r: Reply, cmdN: Byte)
    ensures var g' := ProcessPortInput(g, r, cmdN).0;
            |g'.wire| == |g.wire| + (if HandlerSends(g, r, cmdN) then 1 else 0)
    ensures HandlerSends(g, r, cmdN) ==> ProcessPortInput(g, r, cmdN).0.q == g.q && ProcessPortInput(g, r, cmdN).1
  {
    if g.handler == PollHandler && g.target == TARGET_GET_REGS && cmdN == CMD_REGS {
      PollRegsTidy(g, r);
    }
  }

  /** One call of `gp_receiv` for an arbitrary frame writes one command at most, save in
      exactly one situation: an ACK comes to a handler that itself sends, and a command is
      waiting. The dispatcher ignores the handler's result for an ACK. */
  lemma TwoSendsOnlyOnAck(g: Gate, r: Reply)
    ensures |g.wire| <= |FrameIn(g, r).wire| <= |g.wire| + 2
    ensures |FrameIn(g, r).wire| == |g.wire| + 2 <==>
              r.src == g.dev && IsAck(r) && HandlerSends(g, r, r.buff[1]) && !Empty(ReadStart(g).q)
  {
    var g1 := ReadStart(g);
    ReadStartTidy(g);
    ProcessSends(g1, r, r.buff[1]);
    ProcessSends(g1, r, r.cmdN);
  }

  // ----- answers taken short -----

  /** A block reply taken short runs only its whole records, and the pointer write stops
      behind them: what was cut off is asked for again. */
  lemma CutBlockPassesLess(s: Sys, missing: nat)
    requires Awaiting(s) && s.g.target == TARGET_GET_BUFF_DATA && !IsReplyFrame(s.line[0].r)
    requires missing <= s.line[0].r.len <= CMD_BUFF_LENGTH
    ensures BlockRun(s, Delivered(s, Cut(s.line[0].r, missing)), (s.line[0].r.len - missing) / EVENT_SIZE)
  {
    var r := Cut(s.line[0].r, missing);
    CutRun(s, missing);
    CutCount(s.line[0].r, missing);
    SameRun(s, WithCut(s, missing), Delivered(s, r), RecordCount(r));
  }

  /** Once that write is acknowledged, the cycle has moved the device's `down` on if and only
      if at least one whole record was left. A block of one record cut by a byte moves
      nothing, and the next cycle asks for the same block again. */
  lemma CutBlockMoves(s: Sys, missing: nat, r: Reply, s': Sys)
    requires Awaiting(s) && s.g.target == TARGET_GET_BUFF_DATA && !IsReplyFrame(s.line[0].r)
    requires missing <= s.line[0].r.len <= CMD_BUFF_LENGTH
    requires Acknowledged(Delivered(s, Cut(s.line[0].r, missing)), r, s')
    ensures var l, l', left := s.logs[s.g.dev], s'.logs[s.g.dev], s.line[0].r.len - missing;
            && l'.all == l.all && l'.downNo == l.downNo + left / EVENT_SIZE
            && (l'.downNo > l.downNo <==> left >= EVENT_SIZE)
  {
    CutBlockPassesLess(s, missing);
    assert LogOk(s.logs[s.g.dev], s.g.devices[s.g.dev]);
    PassBlock(s, Delivered(s, Cut(s.line[0].r, missing)), r, s', (s.line[0].r.len - missing) / EVENT_SIZE);
  }

  lemma CutRun(s: Sys, missing: nat)
    requires Awaiting(s) && s.g.target == TARGET_GET_BUFF_DATA && !IsReplyFrame(s.line[0].r)
    ensures var r := Cut(s.line[0].r, missing); BlockRun(WithCut(s, missing), Delivered(s, r), RecordCount(r))
  {
    CutAwaits(s, missing);
    BlockLogs(WithCut(s, missing));
  }

  lemma CutCount(r: Reply, missing: nat)
    requires !IsReplyFrame(r) && missing <= r.len <= CMD_BUFF_LENGTH
    ensures RecordCount(Cut(r, missing)) == (r.len - missing) / EVENT_SIZE
  {
  }

  // ----- without loss -----

  /** Nothing is lost, refused or corrupted. Answers may be taken short. */
  predicate LossFree(steps: seq<Step>) {
    forall k :: 0 <= k < |steps| ==>
      match steps[k]
      case Lose => false
      case Reject => false
      case Answered(r, _) => !Refusal(r)
      case _ => true
  }

  /** Every record from the first on has been seen once, in order, and `down` is right
      behind them, or a write that will move it there is on the line. */
  ghost predicate ExactLog(s: Sys, d: DevId) {
    var l := s.logs[d];
    && l.seen == Range(l.first, |l.seen|)
    && (if d == s.g.dev && |s.line| == 1 && s.line[0].Request? && s.line[0].z.target == TARGET_SET_BUFF_ADDR_DOWN
        then |s.line[0].z.data| == 7 &&
             l.downNo + Ahead(l.down, FromBe16(s.line[0].z.data, 5)) == l.first + |l.seen|
        else l.downNo == l.first + |l.seen|)
  }

  ghost predicate Exact(s: Sys) {
    Inv(s) && forall d: DevId :: ExactLog(s, d)
  }

  /** What delivering an answer does to the logs and the line. */
  lemma DeliverLogs(s: Sys)
    requires Awaiting(s)
    ensures var s', r := Delivered(s, s.line[0].r), s.line[0].r;
            if s.g.target == TARGET_GET_BUFF_DATA && !IsReplyFrame(r) then BlockRun(s, s', RecordCount(r))
            else
              s'.logs == s.logs && NoDownOnLine(s')
  {
    var g1, r := ReadStart(s.g), s.line[0].r;
    ReadStartTidy(s.g);
    if OffChain(s.g, r) {
      DispatchQuiet(g1, r);
      TidyThenQuiet(s.g, g1, Dispatch(g1, r));
      QuietLogs(s, Dispatch(g1, r));
      QuietLine(s, Dispatch(g1, r));
    } else if s.g.target == TARGET_GET_BUFF_ADDR {
      PointersLogs(s);
    } else {
      BlockLogs(s);
    }
  }

  lemma QuietLine(s: Sys, g': Gate)
    requires Quiet(s.g, g')
    ensures Sent(s.g, g') == [] || (|Sent(s.g, g')| == 1 && Queueable(Sent(s.g, g')[0].z))
  {
  }

  /** `n` further records have been asked for, or the chain has ended. */
  ghost predicate Asked(s: Sys, s': Sys, n: nat) {
    && s'.logs == s.logs && n <= EV_BLOCK_SIZE
    && if n > 0
       then s'.line == [Request(GetBuffData(Short, s.g.dev, Phys(s.logs[s.g.dev].downNo), EVENT_SIZE * n))] &&
            s'.g.dev == s.g.dev && s'.g.target == TARGET_GET_BUFF_DATA
       else NoDownOnLine(s')
  }

  lemma PointersLogs(s: Sys)
    requires PointersDue(s)
    ensures Asked(s, Delivered(s, s.line[0].r), Offered(s.logs[s.g.dev], s.line[0].r))
  {
    ReadStartTidy(s.g);
    DeliveredPointers(s);
    AfterPointersLogs(s, ReadStart(s.g));
  }

  lemma AfterPointersLogs(s: Sys, g1: Gate)
    requires PointersDue(s) && Tidy(s.g, g1)
    ensures Asked(s, AfterAnswer(s, AfterPointers(g1, s.logs[s.g.dev], s.line[0].r)),
                  Offered(s.logs[s.g.dev], s.line[0].r))
  {
    var r, l := s.line[0].r, s.logs[s.g.dev];
    PointersArrive(g1, l, r);
    var dev' := DevAt(g1, r.src).(boundDown := FromBe16(r.buff, 2), boundUp := FromBe16(r.buff, 0));
    if Offered(l, r) > 0 {
      BlockIsAsked(s, g1, dev', GetBuffData(Short, r.src, Phys(l.downNo), EVENT_SIZE * Offered(l, r)));
    } else {
      EndOfChain(s, g1, dev');
      QuietLogs(s, PutCmd(SetDev(g1, s.g.dev, dev')));
      QuietLine(s, PutCmd(SetDev(g1, s.g.dev, dev')));
    }
  }

  /** A block of `n` records has been run, and the write of the pointer past it sent. */
  ghost predicate BlockRun(s: Sys, s': Sys, n: nat) {
    match s'
    case Sys(g', line', logs') =>
      var l := s.logs[s.g.dev];
      && logs' == s.logs[s.g.dev := l.(seen := l.seen + Range(l.downNo, n))]
      && line' == [Request(SetBuffAddrDown(Short, s.g.dev, Phys(l.downNo + n)))] && g'.dev == s.g.dev
      && n <= EV_BLOCK_SIZE
  }

  lemma BlockLogs(s: Sys)
    requires Awaiting(s) && s.g.target == TARGET_GET_BUFF_DATA && !IsReplyFrame(s.line[0].r)
    ensures BlockRun(s, Delivered(s, s.line[0].r), RecordCount(s.line[0].r))
  {
    ReadStartTidy(s.g);
    DeliveredBlock(s);
    AfterBlockLogs(s, ReadStart(s.g));
  }

  lemma AfterBlockLogs(s: Sys, g1: Gate)
    requires Awaiting(s) && s.g.target == TARGET_GET_BUFF_DATA && !IsReplyFrame(s.line[0].r)
    requires Tidy(s.g, g1)
    ensures BlockRun(s, AfterAnswer(s, AfterBlock(g1, s.line[0].r)), RecordCount(s.line[0].r))
  {
    var d, r, l := s.g.dev, s.line[0].r, s.logs[s.g.dev];
    var dev, n := DevAt(g1, d), RecordCount(r);
    assert SameLog(DevAt(s.g, d), dev);
    var dev' := AfterRecords(dev, g1.db, Records(r.buff, n));
    BlockNotes(s, dev, g1.db);
    BlockSent(s, g1, dev', n);
    AfterBlockIs(g1, r, dev', n);
    BlockRunParts(s, Send(SetDev(g1, d, dev'), SetBuffAddrDown(Short, d, Phys(l.downNo + n))), n);
  }

  lemma BlockNotes(s: Sys, dev: Dev, db: DbLayer.Db)
    requires Awaiting(s) && s.g.target == TARGET_GET_BUFF_DATA && !IsReplyFrame(s.line[0].r)
    requires SameLog(DevAt(s.g, s.g.dev), dev)
    ensures var r, d, l := s.line[0].r, s.g.dev, s.logs[s.g.dev];
            && r.src == d
            && RecordCount(r) <= s.g.wire[|s.g.wire| - 1].data[2] / EVENT_SIZE
            && NoteSeen(l, DevAt(s.g, d).boundDown, DevAt(s.g, d),
                        AfterRecords(dev, db, Records(r.buff, RecordCount(r))))
               == l.(seen := l.seen + Range(l.downNo, RecordCount(r)))
  {
    var r, l, z := s.line[0].r, s.logs[s.g.dev], s.g.wire[|s.g.wire| - 1];
    NoteSeenSame(l, DevAt(s.g, s.g.dev), dev, AfterRecords(dev, db, Records(r.buff, RecordCount(r))));
    LogOkSame(l, DevAt(s.g, s.g.dev), dev);
    BlockRead(l, dev, z, r);
    BlockArrives(l, dev, z, r, db);
  }

  lemma BlockRunParts(s: Sys, g': Gate, n: nat)
    requires |s.line| == 1 && n <= EV_BLOCK_SIZE && g'.dev == s.g.dev
    requires var l := s.logs[s.g.dev];
             && Sent(s.g, g') == [Request(SetBuffAddrDown(Short, s.g.dev, Phys(l.downNo + n)))]
             && NoteSeen(l, DevAt(s.g, s.g.dev).boundDown, DevAt(s.g, s.g.dev), g'.devices[s.g.dev])
                == l.(seen := l.seen + Range(l.downNo, n))
    ensures BlockRun(s, AfterAnswer(s, g'), n)
  {
  }

  lemma BlockSent(s: Sys, g1: Gate, dev': Dev, n: nat)
    requires Awaiting(s) && s.g.target == TARGET_GET_BUFF_DATA && Tidy(s.g, g1)
    requires n <= s.g.wire[|s.g.wire| - 1].data[2] / EVENT_SIZE
    ensures var d, l, a := s.g.dev, s.logs[s.g.dev], DevAt(s.g, s.g.dev).boundDown;
            && a <= MAX_LOG_BOUND && n <= EV_BLOCK_SIZE && NextDown(a, n) == Phys(l.downNo + n)
            && Sent(s.g, Send(SetDev(g1, d, dev'), SetBuffAddrDown(Short, d, Phys(l.downNo + n))))
               == [Request(SetBuffAddrDown(Short, d, Phys(l.downNo + n)))]
  {
    NextDownPhys(s.logs[s.g.dev].downNo, n);
    SendSent(s.g, SetDev(g1, s.g.dev, dev'), SetBuffAddrDown(Short, s.g.dev, Phys(s.logs[s.g.dev].downNo + n)));
  }

  predicate NoDownOnLine(s: Sys) {
    s.line == [] || (|s.line| == 1 && !(s.line[0].Request? && s.line[0].z.target == TARGET_SET_BUFF_ADDR_DOWN))
  }

  lemma StillExact(s: Sys, s': Sys)
    requires Exact(s) && NoDownOnLine(s) && NoDownOnLine(s') && s'.logs == s.logs && Inv(s')
    ensures Exact(s')
  {
    forall d: DevId
      ensures ExactLog(s', d)
    {
      assert ExactLog(s, d);
    }
  }

  lemma DeliverExact(s: Sys)
    requires Exact(s) && Awaiting(s)
    ensures Exact(Delivered(s, s.line[0].r))
  {
    DeliverInv(s);
    DeliverLogs(s);
    var s', r := Delivered(s, s.line[0].r), s.line[0].r;
    if s.g.target == TARGET_GET_BUFF_DATA && !IsReplyFrame(r) {
      BlockDelivered(s, s', RecordCount(r));
    } else {
      StillExact(s, s');
    }
  }

  lemma DeliverCutExact(s: Sys, missing: nat)
    requires Exact(s) && Awaiting(s)
    ensures Exact(Delivered(s, Cut(s.line[0].r, missing)))
  {
    CutAwaits(s, missing);
    StillExact(s, WithCut(s, missing));
    DeliverExact(WithCut(s, missing));
  }

  lemma BlockDelivered(s: Sys, s': Sys, n: nat)
    requires Exact(s) && NoDownOnLine(s) && Inv(s') && BlockRun(s, s', n)
    ensures Exact(s')
  {
    forall d: DevId
      ensures ExactLog(s', d)
    {
      assert ExactLog(s, d) && LogOk(s.logs[d], s.g.devices[d]);
      BlockDeliveredAt(s, s', n, d);
    }
  }

  lemma BlockDeliveredAt(s: Sys, s': Sys, n: nat, d: DevId)
    requires ExactLog(s, d) && RingOk(s.logs[d]) && NoDownOnLine(s) && BlockRun(s, s', n)
    ensures ExactLog(s', d)
  {
    if d == s.g.dev {
      BlockExact(s.logs[d], d, n);
    }
  }

  lemma BlockExact(l: Log, d: DevId, n: nat)
    requires RingOk(l) && l.seen == Range(l.first, |l.seen|) && l.downNo == l.first + |l.seen| && n <= EV_BLOCK_SIZE
    ensures var l', z := l.(seen := l.seen + Range(l.downNo, n)), SetBuffAddrDown(Short, d, Phys(l.downNo + n));
            l'.seen == Range(l'.first, |l'.seen|) && |z.data| == 7 &&
            l'.downNo + Ahead(l'.down, FromBe16(z.data, 5)) == l'.first + |l'.seen|
  {
    SetDownBytes(Short, d, Phys(l.downNo + n));
    PhysAhead(l.downNo, n);
  }

  lemma AnsweredExact(s: Sys, r: Reply, applied: bool)
    requires Exact(s) && Enabled(s, Answered(r, applied)) && !Refusal(r)
    ensures Exact(Apply(s, Answered(r, applied)))
  {
    AnsweredInv(s, r, applied);
    var z := s.line[0].z;
    if z.target == TARGET_SET_BUFF_ADDR_DOWN {
      SetDownBytes(Short, z.dst, FromBe16(z.data, 5));
    } else {
      if z.target != TARGET_GET_BUFF_DATA {
        QueueableDoesNotSetDown(z);
      }
      assert !applied;
    }
    forall d: DevId
      ensures ExactLog(Apply(s, Answered(r, applied)), d)
    {
      assert ExactLog(s, d);
    }
  }

  lemma SameLogsExact(s: Sys, g': Gate)
    requires Exact(s) && Tidy(s.g, g')
    ensures Exact(Sys(g', s.line, s.logs))
  {
    TidyKeepsInv(s, g', s.line);
    forall d: DevId
      ensures ExactLog(Sys(g', s.line, s.logs), d)
    {
      assert ExactLog(s, d);
    }
  }

  lemma TickExact(s: Sys, due: bool)
    requires Exact(s) && Enabled(s, Tick(due))
    ensures Exact(s.(g := Timer(s.g, due), line := s.line + Sent(s.g, Timer(s.g, due))))
  {
    TickInv(s, due);
    var g' := Timer(s.g, due);
    TimerQuiet(s.g, due);
    QuietLine(s, g');
    var s' := s.(g := g', line := s.line + Sent(s.g, g'));
    assert due ==> s'.line == Sent(s.g, g');
    assert !due ==> s'.line == s.line;
    forall d: DevId
      ensures ExactLog(s', d)
    {
      assert ExactLog(s, d);
    }
  }

  lemma LogEventExact(s: Sys, d: DevId, r: Rec)
    requires Exact(s) && Enabled(s, LogEvent(d, r))
    ensures Exact(s.(logs := s.logs[d := Append(s.logs[d], r)]))
  {
    LogEventInv(s, d, r);
    var s' := s.(logs := s.logs[d := Append(s.logs[d], r)]);
    forall d': DevId
      ensures ExactLog(s', d')
    {
      assert ExactLog(s, d');
    }
  }

  lemma StepExact(s: Sys, st: Step)
    requires Exact(s) && Enabled(s, st) && LossFree([st])
    ensures Exact(Apply(s, st))
  {
    assert [st][0] == st;
    match st
    case LogEvent(d, rec) => LogEventExact(s, d, rec);
    case Answered(r, applied) => AnsweredExact(s, r, applied);
    case Deliver(missing) => DeliverCutExact(s, missing);
    case Part =>
      ReadStartTidy(s.g);
      SameLogsExact(s, ReadStart(s.g));
    case Tick(due) => TickExact(s, due);
    case App(c) =>
      CallTidy(s.g, c);
      SameLogsExact(s, AppStep(s.g, c));
      assert s.line + Sent(s.g, AppStep(s.g, c)) == s.line;
    case _ =>
  }

  lemma {:induction false} RunExact(s: Sys, steps: seq<Step>)
    requires Exact(s) && Legal(s, steps) && LossFree(steps)
    ensures Exact(LineSystem.Run(s, steps))
    decreases steps
  {
    if steps != [] {
      assert [steps[0]][0] == steps[0];
      StepExact(s, steps[0]);
      RunExact(Apply(s, steps[0]), steps[1..]);
    }
  }

  /** Over every run without loss the loop has run exactly a prefix of what the device has
      logged since the start: each record once, in order. */
  lemma LossFreeStreamIsLogPrefix(s: Sys, steps: seq<Step>, d: DevId)
    requires Init(s) && Legal(s, steps) && LossFree(steps)
    ensures var e := LineSystem.Run(s, steps);
            var l, stream := e.logs[d], e.g.devices[d].stream;
            l.first + |stream| <= |l.all| && stream == l.all[l.first..l.first + |stream|]
  {
    InitInv(s);
    assert Exact(s);
    RunExact(s, steps);
    ExactPrefix(LineSystem.Run(s, steps), d);
  }

  lemma ExactPrefix(e: Sys, d: DevId)
    requires Exact(e)
    ensures var l, stream := e.logs[d], e.g.devices[d].stream;
            l.first + |stream| <= |l.all| && stream == l.all[l.first..l.first + |stream|]
  {
    var l, stream := e.logs[d], e.g.devices[d].stream;
    assert ExactLog(e, d) && RingOk(l) && SeenOk(l, stream);
    if stream != [] {
      assert l.seen[|stream| - 1] < |l.all|;
    }
  }

  // ----- progress -----

  /** The request on the line is answered with other than a refusal, and the answer
      arrives. */
  ghost predicate Exchange(s: Sys, r: Reply, s': Sys) {
    Enabled(s, Answered(r, false)) && !Refusal(r) && s' == Apply(Apply(s, Answered(r, false)), Deliver(0))
  }

  /** One undisturbed cycle from a pointer request on the line: pointers, block, pointer
      write. */
  datatype Drain = Drain(s: Sys, r1: Reply, s1: Sys, r2: Reply, s2: Sys, r3: Reply, end: Sys)

  ghost predicate Cycle(c: Drain, d: DevId) {
    && Inv(c.s) && c.s.g.handler == LogHandler && c.s.g.target == TARGET_GET_BUFF_ADDR && c.s.g.dev == d
    && c.s.logs[d].downNo < |c.s.logs[d].all| && c.s.line != [] && c.s.line[0].Request?
    && Exchange(c.s, c.r1, c.s1) && Exchange(c.s1, c.r2, c.s2) && Acknowledged(c.s2, c.r3, c.end)
  }

  /** It takes the device's `down` past exactly one block, which is the step that `Cycles`
      counts. */
  lemma CycleAdvances(c: Drain, d: DevId)
    requires Cycle(c, d)
    ensures var l, l' := c.s.logs[d], c.end.logs[d];
            l'.all == l.all && l'.downNo == l.downNo + BlockCount(l.downNo, |l.all|)
  {
    var n := BlockCount(c.s.logs[d].downNo, |c.s.logs[d].all|);
    PointerHalf(c.s, c.r1, c.s1);
    BlockHalf(c.s1, c.r2, c.s2, n);
    PassBlock(c.s1, c.s2, c.r3, c.end, n);
  }

  /** Cycle `i` of several of a device; whatever happens before it leaves the log alone. */
  ghost predicate CycleAt(cs: seq<Drain>, i: nat, d: DevId)
    requires i < |cs|
  {
    Cycle(cs[i], d) && (i > 0 ==> cs[i].s.logs[d] == cs[i - 1].end.logs[d])
  }

  ghost predicate InARow(cs: seq<Drain>, d: DevId) {
    forall i {:trigger CycleAt(cs, i, d)} :: 0 <= i < |cs| ==> CycleAt(cs, i, d)
  }

  function LogsOf(cs: seq<Drain>, d: DevId): (ls: seq<(Log, Log)>)
    ensures |ls| == |cs|
    ensures forall i :: 0 <= i < |cs| ==> ls[i] == (cs[i].s.logs[d], cs[i].end.logs[d])
  {
    seq(|cs|, i requires 0 <= i < |cs| => (cs[i].s.logs[d], cs[i].end.logs[d]))
  }

  /** A device's log before and after each cycle. */
  ghost predicate Advances(l: Log, l': Log) {
    l.downNo < |l.all| && l'.all == l.all && l'.downNo == l.downNo + BlockCount(l.downNo, |l.all|)
  }

  ghost predicate AllAdvance(ls: seq<(Log, Log)>) {
    && (forall i :: 0 <= i < |ls| ==> Advances(ls[i].0, ls[i].1))
    && (forall i :: 0 < i < |ls| ==> ls[i].0 == ls[i - 1].1)
  }

  lemma {:induction false} EmptyAfter(ls: seq<(Log, Log)>)
    requires ls != [] && AllAdvance(ls)
    requires ls[0].0.downNo <= |ls[0].0.all| && |ls| == Cycles(ls[0].0.downNo, |ls[0].0.all|)
    ensures var l := ls[|ls| - 1].1; l.all == ls[0].0.all && l.downNo == |l.all|
    decreases |ls|
  {
    assert Advances(ls[0].0, ls[0].1);
    if |ls| > 1 {
      var rest := ls[1..];
      assert rest[0].0 == ls[0].1 && AllAdvance(rest);
      EmptyAfter(rest);
    }
  }

  /** With nothing logged meanwhile, the log is empty after as many cycles as `Cycles` says. */
  lemma DrainedAfterCycles(cs: seq<Drain>, d: DevId)
    requires cs != [] && InARow(cs, d) && cs[0].s.logs[d].downNo <= |cs[0].s.logs[d].all|
    requires |cs| == Cycles(cs[0].s.logs[d].downNo, |cs[0].s.logs[d].all|)
    ensures var l := cs[|cs| - 1].end.logs[d]; l.all == cs[0].s.logs[d].all && l.downNo == |l.all|
  {
    forall i | 0 <= i < |cs|
      ensures LogStep(cs, d, i)
    {
      OneLogStep(cs, d, i);
    }
    LogsAdvance(cs, d);
    EmptyAfter(LogsOf(cs, d));
  }

  ghost predicate LogStep(cs: seq<Drain>, d: DevId, i: nat)
    requires i < |cs|
  {
    && Advances(cs[i].s.logs[d], cs[i].end.logs[d])
    && (i > 0 ==> cs[i].s.logs[d] == cs[i - 1].end.logs[d])
  }

  lemma OneLogStep(cs: seq<Drain>, d: DevId, i: nat)
    requires InARow(cs, d) && i < |cs|
    ensures LogStep(cs, d, i)
  {
    assert CycleAt(cs, i, d);
    CycleAdvances(cs[i], d);
  }

  lemma LogsAdvance(cs: seq<Drain>, d: DevId)
    requires forall i {:trigger LogStep(cs, d, i)} :: 0 <= i < |cs| ==> LogStep(cs, d, i)
    ensures AllAdvance(LogsOf(cs, d))
  {
    var ls := LogsOf(cs, d);
    forall i | 0 <= i < |ls|
      ensures Advances(ls[i].0, ls[i].1) && (i > 0 ==> ls[i].0 == ls[i - 1].1)
    {
      assert LogStep(cs, d, i);
    }
  }

  lemma PassBlock(s: Sys, s1: Sys, r: Reply, s': Sys, n: nat)
    requires RingOk(s.logs[s.g.dev]) && BlockRun(s, s1, n) && Acknowledged(s1, r, s')
    ensures var l, l' := s.logs[s.g.dev], s'.logs[s.g.dev]; l'.all == l.all && l'.downNo == l.downNo + n
  {
    PassHalf(s1, s.g.dev, r, s', n);
  }

  /** The request on the line is a write, and has been applied and acknowledged. */
  ghost predicate Acknowledged(s: Sys, r: Reply, s': Sys) {
    Enabled(s, Answered(r, true)) && s' == Apply(s, Answered(r, true))
  }

  /** A block of `n` records has been asked for. */
  ghost predicate BlockOnLine(s: Sys, n: nat) {
    match s
    case Sys(g, line, logs) =>
      && Inv(s) && g.target == TARGET_GET_BUFF_DATA && 0 < n <= EV_BLOCK_SIZE
      && line == [Request(GetBuffData(Short, g.dev, Phys(logs[g.dev].downNo), EVENT_SIZE * n))]
  }

  lemma AskedOnLine(s: Sys, s': Sys, n: nat)
    requires Asked(s, s', n) && n > 0 && Inv(s')
    ensures s'.logs == s.logs && s'.g.dev == s.g.dev && BlockOnLine(s', n)
  {
  }

  lemma PointerHalf(s: Sys, r: Reply, s': Sys)
    requires Inv(s) && s.g.handler == LogHandler && s.g.target == TARGET_GET_BUFF_ADDR
    requires s.logs[s.g.dev].downNo < |s.logs[s.g.dev].all| && s.line != [] && s.line[0].Request?
    requires Exchange(s, r, s')
    ensures var l := s.logs[s.g.dev];
            s'.logs == s.logs && s'.g.dev == s.g.dev && BlockOnLine(s', BlockCount(l.downNo, |l.all|))
  {
    PointersAnswered(s, r);
    ExchangeIs(s, r, s');
    PointersTaken(Apply(s, Answered(r, false)), BlockCount(s.logs[s.g.dev].downNo, |s.logs[s.g.dev].all|));
  }

  lemma ExchangeIs(s: Sys, r: Reply, s': Sys)
    requires Exchange(s, r, s')
    ensures s' == Delivered(Apply(s, Answered(r, false)), r)
  {
    CutNothing(r);
  }

  lemma PointersTaken(s: Sys, n: nat)
    requires PointersDue(s) && n == Offered(s.logs[s.g.dev], s.line[0].r) > 0
    ensures var s' := Delivered(s, s.line[0].r);
            s'.logs == s.logs && s'.g.dev == s.g.dev && BlockOnLine(s', n)
  {
    PointersLogs(s);
    DeliverPointers(s);
    AskedOnLine(s, Delivered(s, s.line[0].r), n);
  }

  lemma CutNothing(r: Reply)
    ensures Cut(r, 0) == r
  {
  }

  lemma BlockHalf(s: Sys, r: Reply, s': Sys, n: nat)
    requires BlockOnLine(s, n) && Exchange(s, r, s')
    ensures BlockRun(s, s', n)
  {
    BlockAnswered(s, r, n);
    AnsweredInv(s, r, false);
    BlockLogs(Apply(s, Answered(r, false)));
    ExchangeIs(s, r, s');
    SameRun(s, Apply(s, Answered(r, false)), s', n);
  }

  lemma SameRun(s: Sys, s1: Sys, s': Sys, n: nat)
    requires s1.g == s.g && s1.logs == s.logs && BlockRun(s1, s', n)
    ensures BlockRun(s, s', n)
  {
  }

  lemma PassHalf(s: Sys, d: DevId, r: Reply, s': Sys, n: nat)
    requires n < SLOTS && s.logs[d].down == Phys(s.logs[d].downNo)
    requires s.line == [Request(SetBuffAddrDown(Short, d, Phys(s.logs[d].downNo + n)))]
    requires Acknowledged(s, r, s')
    ensures s'.logs[d].all == s.logs[d].all && s'.logs[d].downNo == s.logs[d].downNo + n
  {
    SetDownBytes(Short, d, Phys(s.logs[d].downNo + n));
    PhysAhead(s.logs[d].downNo, n);
  }

  lemma PointersAnswered(s: Sys, r: Reply)
    requires Inv(s) && s.g.target == TARGET_GET_BUFF_ADDR && s.line != [] && s.line[0].Request?
    requires Enabled(s, Answered(r, false)) && !Refusal(r)
    ensures var s1, l := Apply(s, Answered(r, false)), s.logs[s.g.dev];
            && Awaiting(s1) && s1.line == [Answer(r)] && s1.g == s.g && s1.logs == s.logs
            && !IsReplyFrame(r) && Offered(l, r) == BlockCount(l.downNo, |l.all|)
  {
    AnsweredInv(s, r, false);
    PointersRead(s.logs[s.g.dev], r);
  }

  lemma PointersRead(l: Log, r: Reply)
    requires RingOk(l) && r.buff[..4] == ToBe16(l.up) + ToBe16(l.down)
    ensures Offered(l, r) == BlockCount(l.downNo, |l.all|)
  {
    var bytes := ToBe16(l.up) + ToBe16(l.down);
    assert bytes == [] + ToBe16(l.up) + ToBe16(l.down);
    Be16RoundTrip([], l.up, ToBe16(l.down));
    assert FromBe16(r.buff, 0) == FromBe16(r.buff[..4], 0);
    PhysAhead(l.downNo, |l.all| - l.downNo);
  }

  lemma BlockAnswered(s: Sys, r: Reply, n: nat)
    requires Inv(s) && s.g.target == TARGET_GET_BUFF_DATA && 0 < n <= EV_BLOCK_SIZE
    requires s.line == [Request(GetBuffData(Short, s.g.dev, Phys(s.logs[s.g.dev].downNo), EVENT_SIZE * n))]
    requires Enabled(s, Answered(r, false)) && !Refusal(r)
    ensures var s1 := Apply(s, Answered(r, false));
            && s1.line == [Answer(r)] && s1.g == s.g && s1.logs == s.logs
            && !IsReplyFrame(r) && RecordCount(r) == n
  {
    AnsweredInv(s, r, false);
    var z := s.line[0].z;
    assert z.data[2] == EVENT_SIZE * n;
  }

  // ----- token records -----

  /** What is asked for keeps the records right: a single device is written at an address that
      is in order, and, where that is relied on, a command of the application's own spares the
      slots of token memory. */
  predicate CallSound(g: Gate, known: Known, c: Call) {
    match c
    case CallAddOne(d, t) => Chosen(g, d, t)
    case CallCommand(z) => known.spared ==> SparesSlots(z)
    case _ => true
  }

  lemma AddOneTokens(g: Gate, known: Known, d: DevId, t: Token)
    requires TokenInv(g, known) && Chosen(g, d, t)
    ensures var g' := AddCid(g, d, t).0; TokenInv(g', known) && DbLayer.Grows(g.db, g'.db)
  {
    AddCidKeepsRecords(g, known, d, t);
    assert AddCid(g, d, t).0.db == g.db;
  }

  lemma CallTokens(g: Gate, known: Known, c: Call)
    requires TokenInv(g, known) && CallOk(g, c) && CallSound(g, known, c)
    ensures TokenInv(AppStep(g, c), known) && DbLayer.Grows(g.db, AppStep(g, c).db)
  {
    match c
    case CallAddCid(t) => AddCidToAllInv(g, known, t);
    case CallAddOne(d, t) => AddOneTokens(g, known, d, t);
    case CallAddToken(cid, attr, mask) => AddTokenToAllInv(g, known, cid, attr, mask);
    case CallReload(d, order) => ReloadInv(g, known, d, order);
    case CallCommand(z) =>
      NoTokens(g.db, known, [z]);
      QueueInv(g, known, [z]);
    case CallLogScan => LogTickInv(g, known, 1);
    case CallEnableAll =>
    case CallMaxDev(_) =>
    case CallClock(_) =>
  }

  /** Besides, no information reply names another byte order for a device whose order is
      relied on. */
  predicate StepSound(s: Sys, st: Step, known: Known)
    requires Enabled(s, st)
  {
    match st
    case Deliver(missing) => OrderKept(s.g, Cut(s.line[0].r, missing), known)
    case App(c) => CallSound(s.g, known, c)
    case _ => true
  }

  ghost predicate Sound(s: Sys, steps: seq<Step>, known: Known)
    requires Legal(s, steps)
    decreases steps
  {
    steps == [] || (StepSound(s, steps[0], known) && Sound(Apply(s, steps[0]), steps[1..], known))
  }

  lemma StepTokens(s: Sys, known: Known, st: Step)
    requires TokenInv(s.g, known) && Enabled(s, st) && StepSound(s, st, known)
    ensures TokenInv(Apply(s, st).g, known) && DbLayer.Grows(s.g.db, Apply(s, st).g.db)
  {
    match st
    case LogEvent(_, _) =>
    case Answered(_, _) =>
    case Lose =>
    case Deliver(missing) => FrameInInv(s.g, known, Cut(s.line[0].r, missing));
    case Reject => ReadStartInv(s.g, known);
    case Part => ReadStartInv(s.g, known);
    case Tick(due) => TimerInv(s.g, known, due);
    case App(c) => CallTokens(s.g, known, c);
  }

  lemma {:induction false} RunTokens(s: Sys, known: Known, steps: seq<Step>)
    requires Legal(s, steps) && TokenInv(s.g, known) && Sound(s, steps, known)
    ensures var g := LineSystem.Run(s, steps).g; TokenInv(g, known) && DbLayer.Grows(s.g.db, g.db)
    decreases steps
  {
    if steps != [] {
      StepTokens(s, known, steps[0]);
      RunTokens(Apply(s, steps[0]), known, steps[1..]);
      DbLayer.GrowsTrans(s.g.db, Apply(s, steps[0]).g.db, LineSystem.Run(s, steps).g.db);
    }
  }

  /** Over every run, with cards added in every way the library has: each token record
      waiting in a queue or already sent names a mapped address and carries the card that
      address is mapped to now, or card 0 if there is a record of that; and no address has
      changed hands. It is written in its device's byte order for every device whose order no
      information reply of the run changes. */
  lemma TokensCarryTheirCard(s: Sys, known: Known, steps: seq<Step>)
    requires Legal(s, steps) && TokenInv(s.g, known) && Sound(s, steps, known)
    ensures var g := LineSystem.Run(s, steps).g;
            && DbSound(g.db) && DbLayer.Grows(s.g.db, g.db) && OrdersHold(g, known)
            && (forall z :: Underway(g, known.since, z) ==> TokenOk(g.db, known, z))
  {
    RunTokens(s, known, steps);
    var g := LineSystem.Run(s, steps).g;
    forall z | Underway(g, known.since, z)
      ensures TokenOk(g.db, known, z)
    {
      UnderwayIsOk(g, known, z);
    }
  }

  /** The state after `gp_init`, for a database whose maps agree, satisfies what such a run
      starts from if and only if the highest mapped address leaves room for a slot in 16 bits.
      Otherwise the seed has wrapped to below the first slot. */
  lemma InitTokens(g: Gate, known: Known, m: nat)
    requires Fresh(g) && Seeded(g, m) && DbSound(g.db) && OrdersHold(g, known)
    ensures TokenInv(g, known) <==> m + TICKET_SIZE < U16
  {
    SeedFits(g, m);
    FreshInv(g, known);
  }

  lemma SeedFits(g: Gate, m: nat)
    requires Seeded(g, m)
    ensures g.maxBound >= START_TICKET_BOUND <==> m + TICKET_SIZE < U16
  {
    assert m < U16;
  }

  lemma FreshInv(g: Gate, known: Known)
    requires Fresh(g) && DbSound(g.db) && OrdersHold(g, known)
    ensures TokenInv(g, known) <==> g.maxBound >= START_TICKET_BOUND
  {
  }

  /** A start for the run results about records: after `gp_init`, with room for a slot. */
  ghost predicate Start(s: Sys, m: nat) {
    Init(s) && DbSound(s.g.db) && Seeded(s.g, m) && m + TICKET_SIZE < U16
  }

  /** A start without room: card 5 at the last slot. The next card is stored at address 0, and
      written to device 1 at an address that is not mapped. */
  lemma WrappedSeedMisplaces(g: Gate, known: Known)
    requires g.db == LAST_SLOT_DB && Seeded(g, 0xFFF8) && 1 <= g.maxDevN
    requires DevAt(g, 1).active && DevAt(g, 1).boundToken == START_TICKET_BOUND
    ensures var g' := AddCidToAll(g, Token(7, 0, 0xFF, 0)).0;
            && g'.db.mapping == LAST_SLOT_DB.mapping[0 := 7] && Misplaced(g', START_TICKET_BOUND)
            && exists z :: Waits(g'.q, z) && !TokenOk(g'.db, known, z)
  {
    LowBoundMisplaces(g, Token(7, 0, 0xFF, 0), 1);
    MisplacedIsWrong(AddCidToAll(g, Token(7, 0, 0xFF, 0)).0, known, START_TICKET_BOUND);
  }

  const LAST_SLOT_DB: DbLayer.Db := DbLayer.Db(map[5 := Token(5, 0, 0, 0xFFF8)], map[0xFFF8 := 5])

  lemma LastSlotDbSound()
    ensures DbSound(LAST_SLOT_DB) && DbLayer.IsMaxAddr(LAST_SLOT_DB, 0xFFF8)
  {
    assert 0xFFF8 in LAST_SLOT_DB.mapping && 0xFFF8 % U16 == 0xFFF8;
  }

  /** The steps by which a wrapped seed goes wrong: the first device in range is polled and
      answers, if only with a frame that is dropped, and a card is added without an address. */
  function WrappedSteps(d: DevId, r: Reply, t: Token): seq<Step> {
    [Tick(true), Answered(r.(src := d, cmdN := 0), false), Reject, App(CallAddCid(t))]
  }

  /** So from every start after `gp_init` whose seed has wrapped, and whose first slot is not
      mapped, some run that asks for nothing out of order misplaces a record. */
  lemma WrappedSeedRun(s: Sys, m: nat, r: Reply, t: Token) returns (steps: seq<Step>)
    requires Init(s) && Seeded(s.g, m) && m + TICKET_SIZE >= U16
    requires s.g.idlePos < s.g.maxDevN && START_TICKET_BOUND !in s.g.db.mapping && t.addr < START_TICKET_BOUND
    ensures Legal(s, steps) && Sound(s, steps, NOTHING_KNOWN)
    ensures Misplaced(LineSystem.Run(s, steps).g, START_TICKET_BOUND)
  {
    var d: DevId := s.g.idlePos + 1;
    var a := r.(src := d, cmdN := 0);
    steps := WrappedSteps(d, r, t);
    FirstAnswer(s, d, a);
    var s3 := Apply(Apply(Apply(s, Tick(true)), Answered(a, false)), Reject);
    SeedFits(s.g, m);
    LowBoundMisplaces(s3.g, t, d);
    FourSteps(s, Tick(true), Answered(a, false), Reject, App(CallAddCid(t)));
  }

  /** The first three of those steps leave the device active. */
  lemma FirstAnswer(s: Sys, d: DevId, a: Reply)
    requires Init(s) && s.g.idlePos < s.g.maxDevN && d == s.g.idlePos + 1 && a.src == d && a.cmdN == 0
    ensures Enabled(s, Tick(true)) && Enabled(Apply(s, Tick(true)), Answered(a, false))
    ensures Enabled(Apply(Apply(s, Tick(true)), Answered(a, false)), Reject)
    ensures var g := Apply(Apply(Apply(s, Tick(true)), Answered(a, false)), Reject).g;
            && g.db == s.g.db && g.maxBound == s.g.maxBound && g.maxDevN == s.g.maxDevN
            && DevAt(g, d).active && DevAt(g, d).boundToken == START_TICKET_BOUND
            && forall k: DevId :: 1 <= k < d ==> !DevAt(g, k).active
  {
    FirstPoll(s, d);
    var s1 := Apply(s, Tick(true));
    assert s1.line[0].z == PollCid(d);
    FirstHeard(s, s1.g, d);
  }

  lemma FourSteps(s: Sys, st1: Step, st2: Step, st3: Step, st4: Step)
    requires Enabled(s, st1) && Enabled(Apply(s, st1), st2) && Enabled(Apply(Apply(s, st1), st2), st3)
    requires Enabled(Apply(Apply(Apply(s, st1), st2), st3), st4)
    requires !st1.Deliver? && !st1.App? && !st2.Deliver? && !st2.App? && !st3.Deliver? && !st3.App?
    requires StepSound(Apply(Apply(Apply(s, st1), st2), st3), st4, NOTHING_KNOWN)
    ensures Legal(s, [st1, st2, st3, st4]) && Sound(s, [st1, st2, st3, st4], NOTHING_KNOWN)
    ensures LineSystem.Run(s, [st1, st2, st3, st4]) == Apply(Apply(Apply(Apply(s, st1), st2), st3), st4)
  {
    RunCons(Apply(Apply(Apply(s, st1), st2), st3), st4, []);
    RunCons(Apply(Apply(s, st1), st2), st3, [st4] + []);
    RunCons(Apply(s, st1), st2, [st3] + ([st4] + []));
    RunCons(s, st1, [st2] + ([st3] + ([st4] + [])));
    assert [st1, st2, st3, st4] == [st1] + ([st2] + ([st3] + ([st4] + [])));
  }

  /** One step in front of a run. */
  lemma RunCons(s: Sys, st: Step, rest: seq<Step>)
    requires Enabled(s, st) && Legal(Apply(s, st), rest)
    ensures Legal(s, [st] + rest) && LineSystem.Run(s, [st] + rest) == LineSystem.Run(Apply(s, st), rest)
    ensures forall known :: Sound(s, [st] + rest, known) <==>
              StepSound(s, st, known) && Sound(Apply(s, st), rest, known)
  {
    assert ([st] + rest)[1..] == rest;
  }

  /** Then only the device that has answered is active, with the bound `gp_init` gave it. */
  lemma FirstHeard(s: Sys, g: Gate, d: DevId)
    requires Init(s) && g.devices == s.g.devices && g.dev == d && d >= 1
    ensures var g' := ReadStart(g);
            && g'.db == g.db && g'.maxBound == g.maxBound && g'.maxDevN == g.maxDevN
            && DevAt(g', d).active && DevAt(g', d).boundToken == START_TICKET_BOUND
            && forall k: DevId :: 1 <= k < d ==> !DevAt(g', k).active
  {
    assert forall k: DevId :: DevAt(g, k) == FreshDev(k);
  }

  /** The first poll after a start. */
  lemma FirstPoll(s: Sys, d: DevId)
    requires Init(s) && s.g.idlePos < s.g.maxDevN && d == s.g.idlePos + 1
    ensures var s1 := Apply(s, Tick(true));
            && s1.line == [Request(PollCid(d))] && s1.logs == s.logs && s1.g.dev == d
            && s1.g.devices == s.g.devices && s1.g.db == s.g.db && s1.g.maxBound == s.g.maxBound
            && s1.g.maxDevN == s.g.maxDevN
  {
    assert s.g.devices[d] == FreshDev(d);
    assert IdleScan(s.g.devices, s.g.idlePos, s.g.maxDevN, s.g.maxTimeouts) == (s.g.devices, d, true);
    SendSent(s.g, Expire(s.g).(idlePos := d), PollCid(d));
  }

  /** So, while the database has no record of card 0, every token record carries the card its
      address is mapped to, in one of the two byte orders. */
  lemma RecordsCarryTheirCard(s: Sys, m: nat, steps: seq<Step>, z: Cmd)
    requires Start(s, m) && Legal(s, steps) && Sound(s, steps, NOTHING_KNOWN)
    requires var g := LineSystem.Run(s, steps).g;
             0 !in g.db.token && Underway(g, 0, z) && z.target == TARGET_SET_TOKEN
    ensures var g := LineSystem.Run(s, steps).g;
            && |z.data| == 13 && Begin(z.data) in g.db.mapping
            && exists revert :: z.data[5..11] == Int2BinBytes(g.db.mapping[Begin(z.data)], 6, revert)
  {
    InitTokens(s.g, NOTHING_KNOWN, m);
    TokensCarryTheirCard(s, NOTHING_KNOWN, steps);
    OneOrder(LineSystem.Run(s, steps).g.db, z);
  }

  lemma OneOrder(db: DbLayer.Db, z: Cmd)
    requires TokenOk(db, NOTHING_KNOWN, z) && z.target == TARGET_SET_TOKEN && 0 !in db.token
    ensures |z.data| == 13 && Begin(z.data) in db.mapping
    ensures exists revert :: z.data[5..11] == Int2BinBytes(db.mapping[Begin(z.data)], 6, revert)
  {
  }

  /** A token record names a mapped address, and reads in byte order `revert` as the low 48
      bits of the card mapped there. */
  predicate ReadsRight(db: DbLayer.Db, z: Cmd, revert: bool) {
    && |z.data| == 13 && Begin(z.data) in db.mapping
    && CidIn(z, revert) == db.mapping[Begin(z.data)] % Pow256(6)
  }

  /** What is known of a device from now on, from its byte order. */
  function OrderOf(s: Sys, d: DevId): Known {
    Known(map[d := DevAt(s.g, d).revert], false, |s.g.wire|)
  }

  /** All records waiting for a device are in its present byte order; so it is, in particular,
      while none waits. */
  ghost predicate OrderSettled(s: Sys, d: DevId) {
    forall z :: Waits(s.g.q, z) ==> TokenOk(s.g.db, OrderOf(s, d), z)
  }

  lemma NoneWaiting(s: Sys, d: DevId)
    requires forall z :: Waits(s.g.q, z) ==> z.target != TARGET_SET_TOKEN || z.dst != d
    requires TokenInv(s.g, NOTHING_KNOWN)
    ensures OrderSettled(s, d)
  {
  }

  lemma SettledInv(s: Sys, d: DevId)
    requires TokenInv(s.g, NOTHING_KNOWN) && OrderSettled(s, d)
    ensures TokenInv(s.g, OrderOf(s, d))
  {
    assert forall z :: z in s.g.q.first || z in s.g.q.second ==> Waits(s.g.q, z);
  }

  /** Moreover, once a run has come to a point where all records waiting for a device are in its
      present byte order, every token record for it that waits or is sent from then on reads in
      the device's own order as the card its address is mapped to, unless an information reply
      changes the order after that point. `a` are the steps up to it, `b` those behind. */
  lemma RecordsReadRight(s: Sys, m: nat, a: seq<Step>, b: seq<Step>, d: DevId, z: Cmd)
    requires Start(s, m) && Legal(s, a) && Sound(s, a, NOTHING_KNOWN)
    requires var mid := LineSystem.Run(s, a);
             && OrderSettled(mid, d) && Legal(mid, b) && Sound(mid, b, OrderOf(mid, d))
             && var g := LineSystem.Run(mid, b).g;
                && 0 !in g.db.token && Underway(g, |mid.g.wire|, z)
                && z.target == TARGET_SET_TOKEN && z.dst == d
    ensures var g := LineSystem.Run(LineSystem.Run(s, a), b).g; ReadsRight(g.db, z, g.devices[d].revert)
  {
    var mid := LineSystem.Run(s, a);
    InitTokens(s.g, NOTHING_KNOWN, m);
    RunTokens(s, NOTHING_KNOWN, a);
    SettledInv(mid, d);
    RecordReadsInOrder(mid, b, d, z);
  }

  lemma RecordReadsInOrder(s: Sys, steps: seq<Step>, d: DevId, z: Cmd)
    requires TokenInv(s.g, OrderOf(s, d)) && Legal(s, steps) && Sound(s, steps, OrderOf(s, d))
    requires var g := LineSystem.Run(s, steps).g;
             && 0 !in g.db.token && Underway(g, |s.g.wire|, z)
             && z.target == TARGET_SET_TOKEN && z.dst == d
    ensures var g := LineSystem.Run(s, steps).g; ReadsRight(g.db, z, g.devices[d].revert)
  {
    var known := OrderOf(s, d);
    TokensCarryTheirCard(s, known, steps);
    var g := LineSystem.Run(s, steps).g;
    TokenOkMeaning(g.db, known, z);
    assert DevAt(g, d).revert == known.orders[d];
  }
}
