/** What the operations beside the log chain leave alone: they queue commands that do not
    touch the device logs, and keep every log field and the line state as it was. */
module Housekeeping {
  import opened LibGate
  import opened GateState
  import opened GpQueue
  import opened DbLayer
  import opened AdTarget
  import opened AdCmd
  import opened CardBytes
  import opened CardPoll
  import opened GpProcessor
  import opened GpLayer

  /** A command that may wait in a queue. Block reads and pointer writes never do, and
      nothing else writes a device's log pointers. */
  predicate Queueable(z: Cmd) {
    && z.target != TARGET_GET_BUFF_DATA && z.target != TARGET_SET_BUFF_ADDR_DOWN
    && (z.target == TARGET_GET_BUFF_ADDR ==> AsksLogPointers(z.cmdN, z.data))
    && (z.target == TARGET_GET_CID ==> z.cmdN == CMD_GET)
    && !WritesLogPointers(z.cmdN, z.data)
  }

  predicate SameReports(a: Dev, b: Dev) {
    a.lastRec == b.lastRec && a.stream == b.stream && a.events == b.events
  }

  predicate SameLog(a: Dev, b: Dev) {
    a.boundDown == b.boundDown && SameReports(a, b)
  }

  ghost predicate Tidy(g: Gate, g': Gate) {
    && g'.target == g.target && g'.handler == g.handler && g'.dev == g.dev && g'.wire == g.wire
    && (forall d: DevId :: SameLog(g.devices[d], g'.devices[d]))
    && (forall z :: Waits(g'.q, z) ==> Waits(g.q, z) || Queueable(z))
  }

  ghost predicate AllQueueable(zs: seq<Cmd>) {
    forall z :: z in zs ==> Queueable(z)
  }

  lemma TidyTrans(a: Gate, b: Gate, c: Gate)
    requires Tidy(a, b) && Tidy(b, c)
    ensures Tidy(a, c)
  {
    forall d: DevId
      ensures SameLog(a.devices[d], c.devices[d])
    {
      assert SameLog(a.devices[d], b.devices[d]) && SameLog(b.devices[d], c.devices[d]);
    }
  }

  lemma QueueTidy(g: Gate, zs: seq<Cmd>)
    requires AllQueueable(zs)
    ensures Tidy(g, Queue(g, zs))
  {
    InCmdsWaits(g.q, zs);
  }

  lemma SetDevTidy(g: Gate, d: DevId, dev: Dev)
    requires SameLog(g.devices[d], dev)
    ensures Tidy(g, SetDev(g, d, dev))
  {
  }

  lemma SetTokenQueueable(q: Class, d: DevId, addr: Word, record: Rec)
    ensures AllQueueable(SetToken(q, d, addr, record))
  {
    var data := [0x00, 0xA0, 8] + ToBe16(addr) + record;
    assert data[1] == 0xA0 && data[0 := 1][1] == 0xA0;
  }

  lemma SetTokenBoundQueueable(q: Class, d: DevId, addr: Word)
    ensures AllQueueable(SetTokenBound(q, d, addr))
  {
    var data := [0x00, 0xA0, 2, 0x00, 0xBE] + ToBe16(addr);
    assert data[1] == 0xA0 && data[0 := 1][1] == 0xA0;
  }

  lemma DevInitQueueable(d: DevId, bound: Word, date: Rec)
    ensures AllQueueable(DevInit(d, bound, date))
  {
    SetTokenBoundQueueable(Second, d, bound);
    var data := [0x00, 0xD0, 8, 0x00, 0x00] + date;
    assert data[1] == 0xD0 && data[2] == 8 && data[3] == 0 && data[4] == 0;
    assert Begin(data) == 0;
    assert Queueable(SetDate(Second, d, date));
    var times := [0x00, 0xA0, 2, 0x00, 0x00] + [150, 200, 0, 0];
    assert times[1] == 0xA0 && times[0 := 1][1] == 0xA0;
    assert AllQueueable(SetTimes(Second, d));
    assert AllQueueable(GetTokenBound(Second, d, NoHandler)) && AllQueueable(GetTimes(Second, d));
  }

  // ----- adding cards -----

  lemma AddCidTidy(g: Gate, d: DevId, t: Token)
    ensures Tidy(g, AddCid(g, d, t).0)
  {
    var addr := TokenAddr(g, d, t);
    if !Taken(g.db, addr, t.cid) {
      var zs := SetToken(Second, d, addr, TokenRecord(t, DevAt(g, d).revert));
      SetTokenQueueable(Second, d, addr, TokenRecord(t, DevAt(g, d).revert));
      QueueTidy(g, zs);
      if addr >= DevAt(g, d).boundToken {
        var g1, bound: Word := Queue(g, zs), (addr + TICKET_SIZE) % U16;
        RaiseBoundTidy(g1, d, bound);
        TidyTrans(g, g1, RaiseBound(g1, d, bound));
      }
    }
  }

  lemma RaiseBoundTidy(g: Gate, d: DevId, bound: Word)
    ensures Tidy(g, RaiseBound(g, d, bound))
  {
    var g1 := SetDev(g, d, DevAt(g, d).(boundToken := bound)).(maxBound := Max(g.maxBound, bound));
    SetTokenBoundQueueable(Second, d, bound);
    QueueTidy(g1, SetTokenBound(Second, d, bound));
    TidyTrans(g, g1, RaiseBound(g, d, bound));
  }

  lemma {:induction false} AddToDevicesTidy(g: Gate, t: Token, d: nat)
    requires d >= 1
    ensures Tidy(g, AddToDevices(g, t, d).0)
    decreases 256 - d
  {
    if d <= g.maxDevN {
      if !DevAt(g, d).active {
        AddToDevicesTidy(g, t, d + 1);
      } else {
        AddCidTidy(g, d, t);
        var (g1, ok) := AddCid(g, d, t);
        if ok {
          AddToDevicesTidy(g1, t, d + 1);
          TidyTrans(g, g1, AddToDevices(g1, t, d + 1).0);
        }
      }
    }
  }

  lemma AddCidToAllTidy(g: Gate, t: Token)
    ensures Tidy(g, AddCidToAll(g, t).0)
  {
    var t1 := WithAddr(g, t);
    var g1 := g.(db := AddToken(g.db, t1));
    AddToDevicesTidy(g1, t1, 1);
    TidyTrans(g, g1, AddToDevices(g1, t1, 1).0);
  }

  lemma AddTokenToAllTidy(g: Gate, cid: nat, attr: Byte, mask: Byte)
    ensures Tidy(g, AddTokenToAll(g, cid, attr, mask).0)
  {
    match TokenByCid(g.db, cid)
    case None =>
      var t := Token(cid, attr, mask, g.maxBound);
      var g1 := g.(db := AddToken(g.db, t));
      AddToDevicesTidy(g1, t, 1);
      TidyTrans(g, g1, AddToDevices(g1, t, 1).0);
    case Some(t) =>
      AddToDevicesTidy(g, t.(attr := attr, mask := mask), 1);
  }

  lemma {:induction false} ReloadTokensQueueable(db: Db, d: DevId, revert: bool, order: seq<nat>)
    requires forall c :: c in order ==> c in db.token
    ensures AllQueueable(ReloadTokens(db, d, revert, order))
  {
    if order != [] {
      var t := db.token[order[|order| - 1]];
      ReloadTokensQueueable(db, d, revert, order[..|order| - 1]);
      SetTokenQueueable(First, d, t.addr % U16, TokenRecord(t, revert));
    }
  }

  lemma ReloadTidy(g: Gate, d: DevId, order: seq<nat>)
    requires forall c :: c in order ==> c in g.db.token
    ensures Tidy(g, Reload(g, d, order))
  {
    ReloadTokensQueueable(g.db, d, DevAt(g, d).revert, order);
    QueueTidy(g, ReloadCmds(g.db, d, DevAt(g, d).revert, order));
  }

  // ----- replies and timers -----

  lemma AdmitCardTidy(g: Gate, d: DevId, ev: Byte)
    ensures Tidy(g, AdmitCard(g, d, ev))
  {
    match TokenByCid(g.db, DevAt(g, d).lastCid)
    case Some(t) =>
      var g0 := Queue(g, [TurnOn(Second, d, ev % 2)]);
      QueueTidy(g, [TurnOn(Second, d, ev % 2)]);
      AddCidTidy(g0, d, t);
      var (g1, ok) := AddCid(g0, d, t);
      TidyTrans(g, g0, g1);
      AddCidToAllTidy(g1, t.(addr := 0));
      TidyTrans(g, g1, AddCidToAll(g1, t.(addr := 0)).0);
    case None =>
      AddCidToAllTidy(g, Token(DevAt(g, d).lastCid, 0, 0xFF, 0));
  }

  lemma ReadStartTidy(g: Gate)
    ensures Tidy(g, ReadStart(g)) && !ReadStart(g).isExpected
  {
    DevInitQueueable(g.dev, g.maxBound, g.date);
    var dev := DevAt(g, g.dev);
    var g1 := SetDev(g, g.dev, dev.(active := true, timeouts := 0, inited := true)).(isExpected := false);
    QueueTidy(g1, DevInit(g.dev, g.maxBound, g.date));
  }

  lemma {:induction false} LogTickTidy(g: Gate, d: nat)
    requires d >= 1
    ensures Tidy(g, LogTick(g, d)) && LogTick(g, d).isExpected == g.isExpected
    decreases 256 - d
  {
    if d <= g.maxDevN {
      var g1 := if DevAt(g, d).active then Queue(g, [GetBuffAddr(Second, d, LogHandler)]) else g;
      QueueTidy(g, [GetBuffAddr(Second, d, LogHandler)]);
      LogTickTidy(g1, d + 1);
      TidyTrans(g, g1, LogTick(g1, d + 1));
    }
  }

  lemma {:induction false} IdleScanSameLog(devices: Devices, pos: DevId, maxDevN: DevId, limit: nat)
    ensures var ds := IdleScan(devices, pos, maxDevN, limit).0;
            forall d: DevId :: SameLog(devices[d], ds[d])
    decreases maxDevN - pos
  {
    if pos + 1 <= maxDevN && devices[pos + 1].timeouts > limit {
      var ds := devices[pos + 1 := devices[pos + 1].(active := false)];
      IdleScanSameLog(ds, pos + 1, maxDevN, limit);
      forall d: DevId
        ensures SameLog(devices[d], IdleScan(devices, pos, maxDevN, limit).0[d])
      {
        assert SameLog(ds[d], IdleScan(ds, pos + 1, maxDevN, limit).0[d]);
      }
    }
  }

  // ----- what a step outside the chain may do to the line -----

  ghost predicate QueueClean(g: Gate) {
    forall z :: Waits(g.q, z) ==> Queueable(z)
  }

  /** Nothing is sent, or one queueable command is. */
  ghost predicate Quiet(g: Gate, g': Gate) {
    && (forall d: DevId :: SameReports(g.devices[d], g'.devices[d]))
    && QueueClean(g')
    && (Sends(g, g') ||
        (g'.wire == g.wire && g'.target == g.target && g'.handler == g.handler && g'.dev == g.dev &&
         (g.target != TARGET_GET_BUFF_ADDR ==> g'.devices[g.dev].boundDown == g.devices[g.dev].boundDown)))
  }

  predicate Sends(g: Gate, g': Gate) {
    && |g'.wire| == |g.wire| + 1 && g'.wire[..|g.wire|] == g.wire
    && var z := g'.wire[|g.wire|];
       Queueable(z) && g'.target == z.target && g'.dev == z.dst && g'.isExpected
  }

  lemma TidyQuiet(g: Gate, g': Gate)
    requires QueueClean(g) && Tidy(g, g')
    ensures Quiet(g, g')
  {
    assert SameLog(g.devices[g.dev], g'.devices[g.dev]);
  }

  lemma TidySendQuiet(g: Gate, m: Gate, z: Cmd)
    requires QueueClean(g) && Tidy(g, m) && Queueable(z)
    ensures Quiet(g, Send(m, z))
  {
  }

  lemma TidyPutQuiet(g: Gate, m: Gate)
    requires QueueClean(g) && Tidy(g, m)
    ensures Quiet(g, PutCmd(m))
  {
    if Empty(m.q) {
      TidyQuiet(g, m);
    } else {
      assert Waits(m.q, Head(m.q));
      assert forall z :: Waits(Rest(m.q), z) ==> Waits(m.q, z);
      var m1 := m.(q := Rest(m.q));
      TidySendQuiet(g, m1, Head(m.q));
    }
  }

  lemma TimerQuiet(g: Gate, due: bool)
    requires QueueClean(g)
    ensures Quiet(g, Timer(g, due))
  {
    if due {
      var g1 := Expire(g);
      assert Tidy(g, g1);
      if Empty(g1.q) {
        var (devices, pos, found) := IdleScan(g1.devices, g1.idlePos, g1.maxDevN, g1.maxTimeouts);
        IdleScanSameLog(g1.devices, g1.idlePos, g1.maxDevN, g1.maxTimeouts);
        var g2 := g1.(devices := devices, idlePos := pos);
        TidyTrans(g, g1, g2);
        TidyQuiet(g, g2);
        TidySendQuiet(g, g2, PollCid(pos));
      } else {
        TidyPutQuiet(g, g1);
      }
    }
  }

  /** A reply that does not move the log chain on. */
  predicate OffChain(g: Gate, r: Reply) {
    && !(g.handler == LogHandler && (g.target == TARGET_GET_BUFF_ADDR || g.target == TARGET_GET_BUFF_DATA)
         && !(IsReplyFrame(r) && !IsAck(r)))
    && !(g.target == TARGET_GET_CID && IsAck(r))
  }

  lemma PollRegsTidy(g: Gate, r: Reply)
    requires g.target == TARGET_GET_REGS
    ensures Tidy(g, CbGetPollResult(g, r, CMD_REGS).0)
  {
    var ev := r.buff[20];
    var g1 := if Changed(DevAt(g, r.src), ev) && IsNewCard(ev) then AdmitCard(g, r.src, ev) else g;
    AdmitCardTidy(g, r.src, ev);
    SetDevTidy(g1, r.src, SeeRegs(DevAt(g1, r.src), ev));
    TidyTrans(g, g1, SetDev(g1, r.src, SeeRegs(DevAt(g1, r.src), ev)));
  }

  lemma DispatchQuiet(g: Gate, r: Reply)
    requires QueueClean(g) && OffChain(g, r)
    ensures Quiet(g, Dispatch(g, r))
  {
    if r.src != g.dev {
      TidyQuiet(g, g);
    } else if IsReplyFrame(r) && !IsAck(r) {
      TidyPutQuiet(g, g);
    } else {
      var cmdN := if IsAck(r) then r.buff[1] else r.cmdN;
      var (g1, done) := ProcessPortInput(g, r, cmdN);
      if g.handler == PollHandler && g.target == TARGET_GET_CID && cmdN == CMD_GET {
        PollCidQuiet(g, r);
      } else {
        ProcessTidy(g, r, cmdN);
        TidyQuiet(g, g1);
        TidyPutQuiet(g, g1);
      }
    }
  }

  lemma PollCidQuiet(g: Gate, r: Reply)
    requires QueueClean(g) && g.target == TARGET_GET_CID
    ensures CbGetPollResult(g, r, CMD_GET).1 && Quiet(g, CbGetPollResult(g, r, CMD_GET).0)
  {
    var cid := Bin2Int(r.buff, if r.len < 0 then 8 else r.len, DevAt(g, r.src).revert);
    var g1 := SetDev(g, r.src, SeeCid(DevAt(g, r.src), cid));
    SetDevTidy(g, r.src, SeeCid(DevAt(g, r.src), cid));
    TidySendQuiet(g, g1, GetRegs(Short, r.src));
  }

  lemma ProcessTidy(g: Gate, r: Reply, cmdN: Byte)
    requires g.handler == LogHandler ==> g.target != TARGET_GET_BUFF_ADDR && g.target != TARGET_GET_BUFF_DATA
    requires g.handler == PollHandler ==> g.target != TARGET_GET_CID || cmdN != CMD_GET
    ensures Tidy(g, ProcessPortInput(g, r, cmdN).0)
  {
    match g.handler
    case PollHandler =>
      if g.target == TARGET_GET_REGS && cmdN == CMD_REGS {
        PollRegsTidy(g, r);
      }
    case NoHandler => NoteReplyTidy(g, r, cmdN);
    case LogHandler =>
  }

  lemma NoteReplyTidy(g: Gate, r: Reply, cmdN: Byte)
    ensures Tidy(g, NoteReply(g, r, cmdN))
  {
    if cmdN == CMD_INFO {
      SetDevTidy(g, r.src, NoteInfo(DevAt(g, r.src), r.buff));
    }
  }
}
