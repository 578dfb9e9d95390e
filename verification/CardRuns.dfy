/** Card polling over whole runs of the system: the actions taken for a device are those its
    readings call for, whatever is lost, refused or added in between. */
module CardRuns {
  import opened LibGate
  import opened GateState
  import opened GpQueue
  import opened DbLayer
  import opened AdTarget
  import opened AdCmd
  import opened CardBytes
  import opened CardPoll
  import opened GpProcessor
  import opened GpLayer
  import opened LineSystem

  // ----- what leaves the readings alone -----

  /** What the poll handler knows of a device. */
  predicate SamePoll(a: Dev, b: Dev) {
    a.lastCid == b.lastCid && a.newCid == b.newCid && a.lastEv == b.lastEv && a.actions == b.actions
  }

  predicate SameCards(a: Dev, b: Dev) {
    SamePoll(a, b) && a.revert == b.revert
  }

  ghost predicate AllSameCards(a: Devices, b: Devices) {
    forall d: DevId :: SameCards(a[d], b[d])
  }

  /** Nothing has been sent, and what is known of the last command sent is as it was. */
  predicate SameSend(g: Gate, g': Gate) {
    && g'.wire == g.wire && g'.target == g.target && g'.bank == g.bank && g'.handler == g.handler
    && g'.dev == g.dev && g'.polling == g.polling
  }

  /** Readings, byte orders and the outstanding request stay as they are. */
  ghost predicate Calm(g: Gate, g': Gate) {
    g'.isExpected == g.isExpected && SameSend(g, g') && AllSameCards(g.devices, g'.devices)
  }

  lemma AllSameTrans(a: Devices, b: Devices, c: Devices)
    requires AllSameCards(a, b) && AllSameCards(b, c)
    ensures AllSameCards(a, c)
  {
    forall d: DevId
      ensures SameCards(a[d], c[d])
    {
      assert SameCards(a[d], b[d]) && SameCards(b[d], c[d]);
    }
  }

  lemma AddCidCalm(g: Gate, d: DevId, t: Token)
    ensures Calm(g, AddCid(g, d, t).0)
  {
  }

  lemma {:induction false} AddToDevicesCalm(g: Gate, t: Token, d: nat)
    requires d >= 1
    ensures Calm(g, AddToDevices(g, t, d).0)
    decreases 256 - d
  {
    if d <= g.maxDevN {
      if !DevAt(g, d).active {
        AddToDevicesCalm(g, t, d + 1);
      } else {
        var (g1, ok) := AddCid(g, d, t);
        AddCidCalm(g, d, t);
        if ok {
          AddToDevicesCalm(g1, t, d + 1);
          AllSameTrans(g.devices, g1.devices, AddToDevices(g1, t, d + 1).0.devices);
        }
      }
    }
  }

  lemma AddCidToAllCalm(g: Gate, t: Token)
    ensures Calm(g, AddCidToAll(g, t).0)
  {
    var t1 := WithAddr(g, t);
    AddToDevicesCalm(g.(db := AddToken(g.db, t1)), t1, 1);
  }

  lemma AddTokenToAllCalm(g: Gate, cid: nat, attr: Byte, mask: Byte)
    ensures Calm(g, AddTokenToAll(g, cid, attr, mask).0)
  {
    match TokenByCid(g.db, cid)
    case None =>
      var t := Token(cid, attr, mask, g.maxBound);
      AddToDevicesCalm(g.(db := AddToken(g.db, t)), t, 1);
    case Some(t) => AddToDevicesCalm(g, t.(attr := attr, mask := mask), 1);
  }

  lemma AdmitCardCalm(g: Gate, d: DevId, ev: Byte)
    ensures Calm(g, AdmitCard(g, d, ev))
  {
    match TokenByCid(g.db, DevAt(g, d).lastCid)
    case Some(t) =>
      var g0 := Queue(g, [TurnOn(Second, d, ev % 2)]);
      var (g1, ok) := AddCid(g0, d, t);
      AddCidCalm(g0, d, t);
      AddCidToAllCalm(g1, t.(addr := 0));
      AllSameTrans(g.devices, g1.devices, AddCidToAll(g1, t.(addr := 0)).0.devices);
    case None =>
      AddCidToAllCalm(g, Token(DevAt(g, d).lastCid, 0, 0xFF, 0));
  }

  lemma {:induction false} LogTickCalm(g: Gate, d: nat)
    requires d >= 1
    ensures Calm(g, LogTick(g, d))
    decreases 256 - d
  {
    if d <= g.maxDevN {
      LogTickCalm(if DevAt(g, d).active then Queue(g, [GetBuffAddr(Second, d, LogHandler)]) else g, d + 1);
    }
  }

  lemma {:induction false} IdleScanCalm(devices: Devices, pos: DevId, maxDevN: DevId, limit: nat)
    ensures AllSameCards(devices, IdleScan(devices, pos, maxDevN, limit).0)
    decreases maxDevN - pos
  {
    if pos + 1 <= maxDevN && devices[pos + 1].timeouts > limit {
      var ds := devices[pos + 1 := devices[pos + 1].(active := false)];
      IdleScanCalm(ds, pos + 1, maxDevN, limit);
      AllSameTrans(devices, ds, IdleScan(ds, pos + 1, maxDevN, limit).0);
    }
  }

  lemma CallCalm(g: Gate, c: Call)
    requires CallOk(g, c)
    ensures Calm(g, AppStep(g, c))
  {
    match c
    case CallAddCid(t) => AddCidToAllCalm(g, t);
    case CallAddOne(d, t) => AddCidCalm(g, d, t);
    case CallAddToken(cid, attr, mask) => AddTokenToAllCalm(g, cid, attr, mask);
    case CallLogScan => LogTickCalm(g, 1);
    case _ =>
  }

  lemma TimerSameCards(g: Gate, due: bool)
    ensures AllSameCards(g.devices, Timer(g, due).devices)
  {
    if due {
      var g1 := Expire(g);
      assert AllSameCards(g.devices, g1.devices);
      if Empty(g1.q) {
        IdleScanCalm(g1.devices, g1.idlePos, g1.maxDevN, g1.maxTimeouts);
        AllSameTrans(g.devices, g1.devices, SendIdle(g1).devices);
      }
    }
  }

  lemma ReadStartSameCards(g: Gate)
    ensures AllSameCards(g.devices, ReadStart(g).devices)
    ensures ReadStart(g).handler == g.handler && ReadStart(g).target == g.target && ReadStart(g).dev == g.dev
  {
  }

  // ----- readings -----

  /** The reading a reply gives the poll handler. */
  function Reading(g: Gate, r: Reply): seq<Seen> {
    if r.src != g.dev || g.handler != PollHandler then []
    else if g.target == TARGET_GET_CID && CmdOf(r) == CMD_GET then
      [Cid(Bin2Int(r.buff, if r.len < 0 then 8 else r.len, DevAt(g, r.src).revert))]
    else if g.target == TARGET_GET_REGS && CmdOf(r) == CMD_REGS then [Regs(r.buff[20])]
    else []
  }

  /** A device's entry after at most one reading. */
  function See(dev: Dev, obs: seq<Seen>): Dev {
    if obs == [] then dev
    else match obs[0]
      case Cid(c) => SeeCid(dev, c)
      case Regs(e) => SeeRegs(dev, e)
  }

  lemma SeeSame(a: Dev, b: Dev, obs: seq<Seen>)
    requires SamePoll(a, b)
    ensures SamePoll(See(a, obs), See(b, obs))
  {
  }

  /** An information reply, which says the device's byte order. */
  predicate NamesOrder(g: Gate, r: Reply) {
    r.src == g.dev && g.handler == NoHandler && CmdOf(r) == CMD_INFO
  }

  function OrderAfter(g: Gate, r: Reply): bool {
    if NamesOrder(g, r) then InterfaceType(r.buff) > 0 else DevAt(g, r.src).revert
  }

  /** What a reply does to what is known of the devices: its own gets the reading and the
      byte order, the others stay. */
  ghost predicate Effect(g: Gate, r: Reply, devices: Devices) {
    && SamePoll(See(DevAt(g, r.src), Reading(g, r)), devices[r.src])
    && devices[r.src].revert == OrderAfter(g, r)
    && (forall d: DevId :: d != r.src ==> SameCards(g.devices[d], devices[d]))
  }

  lemma NoEffect(g: Gate, r: Reply, devices: Devices)
    requires Reading(g, r) == [] && !NamesOrder(g, r) && AllSameCards(g.devices, devices)
    ensures Effect(g, r, devices)
  {
    assert SameCards(g.devices[r.src], devices[r.src]);
  }

  lemma ProcessEffect(g: Gate, r: Reply)
    requires r.src == g.dev
    ensures Effect(g, r, ProcessPortInput(g, r, CmdOf(r)).0.devices)
  {
    match g.handler
    case LogHandler => LogEffect(g, r);
    case NoHandler => NoteEffect(g, r);
    case PollHandler => PollEffect(g, r);
  }

  lemma LogEffect(g: Gate, r: Reply)
    requires g.handler == LogHandler
    ensures Effect(g, r, CbLogRead(g, r).0.devices)
  {
    NoEffect(g, r, CbLogRead(g, r).0.devices);
  }

  lemma NoteEffect(g: Gate, r: Reply)
    requires r.src == g.dev && g.handler == NoHandler
    ensures Effect(g, r, NoteReply(g, r, CmdOf(r)).devices)
  {
  }

  lemma PollEffect(g: Gate, r: Reply)
    requires r.src == g.dev && g.handler == PollHandler
    ensures Effect(g, r, CbGetPollResult(g, r, CmdOf(r)).0.devices)
  {
    if g.target == TARGET_GET_REGS && CmdOf(r) == CMD_REGS {
      var ev := r.buff[20];
      AdmitCardCalm(g, r.src, ev);
      RegsEffect(g, if Changed(DevAt(g, r.src), ev) && IsNewCard(ev) then AdmitCard(g, r.src, ev) else g, r);
    }
  }

  lemma RegsEffect(g: Gate, g1: Gate, r: Reply)
    requires r.src == g.dev && g.handler == PollHandler && g.target == TARGET_GET_REGS && CmdOf(r) == CMD_REGS
    requires AllSameCards(g.devices, g1.devices)
    ensures Effect(g, r, SetDev(g1, r.src, SeeRegs(DevAt(g1, r.src), r.buff[20])).devices)
  {
    assert SameCards(g.devices[r.src], g1.devices[r.src]);
  }

  lemma PutCmdDevices(g: Gate)
    ensures PutCmd(g).devices == g.devices
  {
  }

  lemma DispatchEffect(g: Gate, r: Reply)
    ensures Effect(g, r, Dispatch(g, r).devices)
  {
    if r.src == g.dev && (IsAck(r) || !IsReplyFrame(r)) {
      ProcessEffect(g, r);
      PutCmdDevices(ProcessPortInput(g, r, CmdOf(r)).0);
    } else {
      PutCmdDevices(g);
      NoEffect(g, r, g.devices);
    }
  }

  lemma FrameEffect(g: Gate, r: Reply)
    ensures Effect(g, r, FrameIn(g, r).devices)
  {
    var g1 := ReadStart(g);
    ReadStartSameCards(g);
    DispatchEffect(g1, r);
    assert SameCards(DevAt(g, r.src), DevAt(g1, r.src));
    SeeSame(DevAt(g, r.src), DevAt(g1, r.src), Reading(g, r));
    forall d: DevId | d != r.src
      ensures SameCards(g.devices[d], FrameIn(g, r).devices[d])
    {
      assert SameCards(g.devices[d], g1.devices[d]);
    }
  }

  // ----- whole runs -----

  /** The readings of device `d` a step brings. */
  function StepReadings(s: Sys, st: Step, d: DevId): (obs: seq<Seen>)
    requires Enabled(s, st)
    ensures |obs| <= 1
  {
    if st.Deliver? && s.line[0].r.src == d then Reading(s.g, Cut(s.line[0].r, st.missing)) else []
  }

  ghost function Readings(s: Sys, steps: seq<Step>, d: DevId): seq<Seen>
    requires Legal(s, steps)
    decreases steps
  {
    if steps == [] then [] else StepReadings(s, steps[0], d) + Readings(Apply(s, steps[0]), steps[1..], d)
  }

  lemma StepEffect(s: Sys, st: Step, d: DevId)
    requires Enabled(s, st)
    ensures SamePoll(See(s.g.devices[d], StepReadings(s, st, d)), Apply(s, st).g.devices[d])
  {
    match st
    case Deliver(missing) => FrameEffect(s.g, Cut(s.line[0].r, missing));
    case Reject => ReadStartSameCards(s.g);
    case Part => ReadStartSameCards(s.g);
    case Tick(due) => TimerSameCards(s.g, due);
    case App(c) => CallCalm(s.g, c);
    case _ =>
  }

  lemma {:induction false} AfterSame(a: Dev, b: Dev, obs: seq<Seen>, k: nat)
    requires k <= |obs| && SamePoll(a, b)
    ensures SamePoll(After(a, obs, k), After(b, obs, k))
  {
    if k > 0 {
      AfterSame(a, b, obs, k - 1);
    }
  }

  lemma {:induction false} AfterMore(dev: Dev, a: seq<Seen>, b: seq<Seen>, k: nat)
    requires k <= |b|
    ensures After(dev, a + b, |a| + k) == After(After(dev, a, |a|), b, k)
  {
    if k > 0 {
      AfterMore(dev, a, b, k - 1);
    } else {
      AfterFront(dev, a, b, |a|);
    }
  }

  lemma {:induction false} AfterFront(dev: Dev, a: seq<Seen>, b: seq<Seen>, k: nat)
    requires k <= |a|
    ensures After(dev, a + b, k) == After(dev, a, k)
  {
    if k > 0 {
      AfterFront(dev, a, b, k - 1);
    }
  }

  /** A first reading at most, and then more. */
  lemma ReadingsJoin(a: Dev, b: Dev, c: Dev, now: seq<Seen>, later: seq<Seen>)
    requires |now| <= 1 && SamePoll(See(a, now), b) && SamePoll(After(b, later, |later|), c)
    ensures SamePoll(After(a, now + later, |now + later|), c)
  {
    assert See(a, now) == After(a, now, |now|);
    AfterMore(a, now, later, |later|);
    AfterSame(See(a, now), b, later, |later|);
  }

  lemma {:induction false} RunEffect(s: Sys, steps: seq<Step>, d: DevId)
    requires Legal(s, steps)
    ensures var obs := Readings(s, steps, d);
            SamePoll(After(s.g.devices[d], obs, |obs|), LineSystem.Run(s, steps).g.devices[d])
    decreases steps
  {
    if steps != [] {
      var s1 := Apply(s, steps[0]);
      StepEffect(s, steps[0], d);
      RunEffect(s1, steps[1..], d);
      ReadingsJoin(s.g.devices[d], s1.g.devices[d], LineSystem.Run(s, steps).g.devices[d],
                   StepReadings(s, steps[0], d), Readings(s1, steps[1..], d));
    }
  }

  /** Over every run the actions taken for a device are exactly those due by the readings that
      reached the poll handler. A lost, refused, corrupted or foreign reply is no reading and
      changes nothing of this, nor do cards added or commands sent in between. */
  lemma ActionsFollowReadings(s: Sys, steps: seq<Step>, d: DevId)
    requires Init(s) && Legal(s, steps)
    ensures var obs := Readings(s, steps, d);
            LineSystem.Run(s, steps).g.devices[d].actions == Actions(0, 0, obs, |obs|)
  {
    var obs := Readings(s, steps, d);
    RunEffect(s, steps, d);
    assert s.g.devices[d] == FreshDev(d);
    ActionsExactlyWhenDue(FreshDev(d), obs, |obs|);
    assert [] + Actions(0, 0, obs, |obs|) == Actions(0, 0, obs, |obs|);
  }
}
