/** Token records on their way to a device always carry the card the database maps
    their address to. */
module TokenSafety {
  import opened LibGate
  import opened GateState
  import opened GpQueue
  import opened DbLayer
  import opened AdTarget
  import opened AdCmd
  import opened CardBytes
  import opened CardPoll
  import opened LogRing
  import opened GpProcessor
  import opened GpLayer
  import opened CardRuns

  // ----- records -----

  /** What is known: byte orders that devices have, whether all commands but token records
      spare the slots of token memory, and since when: of commands sent before the first
      `since`, nothing is said. */
  datatype Known = Known(orders: map<DevId, bool>, spared: bool, since: nat)

  const NOTHING_KNOWN: Known := Known(map[], false, 0)

  predicate Allowed(known: Known, d: DevId, revert: bool) {
    d in known.orders ==> known.orders[d] == revert
  }

  /** Six bytes hold, in byte order `revert`, the card an address is mapped to, or card 0 if
      the database has a record of that. */
  predicate Written(db: Db, addr: nat, bytes: seq<Byte>, revert: bool)
    requires addr in db.mapping
  {
    bytes == Int2BinBytes(db.mapping[addr], 6, revert) || (0 in db.token && bytes == Int2BinBytes(0, 6, revert))
  }

  /** A token record is a write of eight bytes at a mapped address, and carries that address's
      card in its device's byte order where that is known. */
  predicate RecordOk(db: Db, known: Known, z: Cmd) {
    && |z.data| == 13
    && Begin(z.data) >= START_TICKET_BOUND
    && Begin(z.data) in db.mapping
    && z.cmdN == CMD_SET && z.data[0] <= 1 && z.data[1] == 0xA0 && z.data[2] == TICKET_SIZE
    && (|| (Allowed(known, z.dst, false) && Written(db, Begin(z.data), z.data[5..11], false))
        || (Allowed(known, z.dst, true) && Written(db, Begin(z.data), z.data[5..11], true)))
  }

  predicate TokenOk(db: Db, known: Known, z: Cmd) {
    if z.target == TARGET_SET_TOKEN then RecordOk(db, known, z) else known.spared ==> SparesSlots(z)
  }

  /** Addresses in the database are slots a device has. */
  ghost predicate AddrsFit(db: Db) {
    forall c :: c in db.token ==> START_TICKET_BOUND <= db.token[c].addr < U16
  }

  /** The database's maps agree and its addresses are slots. */
  ghost predicate DbSound(db: Db) {
    Index(db) && AddrsFit(db)
  }

  ghost predicate OrdersHold(g: Gate, known: Known) {
    forall d: DevId :: d in known.orders ==> DevAt(g, d).revert == known.orders[d]
  }

  ghost predicate TokenInv(g: Gate, known: Known) {
    match g.q
    case Queues(first, second) =>
      && DbSound(g.db) && g.maxBound >= START_TICKET_BOUND && OrdersHold(g, known)
      && (forall z :: z in first || z in second ==> TokenOk(g.db, known, z))
      && (forall k :: known.since <= k < |g.wire| ==> TokenOk(g.db, known, g.wire[k]))
  }

  /** A command waits, or has been sent since. */
  ghost predicate Underway(g: Gate, since: nat, z: Cmd) {
    Waits(g.q, z) || exists k :: since <= k < |g.wire| && g.wire[k] == z
  }

  lemma UnderwayIsOk(g: Gate, known: Known, z: Cmd)
    requires TokenInv(g, known) && Underway(g, known.since, z)
    ensures TokenOk(g.db, known, z)
  {
  }

  /** Only the queues, the line, the database, the bound and the byte orders matter. */
  lemma SameTokens(g: Gate, g': Gate, known: Known)
    requires TokenInv(g, known)
    requires g'.q == g.q && g'.wire == g.wire && g'.db == g.db && g'.maxBound == g.maxBound && OrdersHold(g', known)
    ensures TokenInv(g', known)
  {
  }

  lemma SetDevTokens(g: Gate, known: Known, d: DevId, dev: Dev)
    requires TokenInv(g, known) && dev.revert == DevAt(g, d).revert
    ensures TokenInv(SetDev(g, d, dev), known)
  {
    SameTokens(g, SetDev(g, d, dev), known);
  }

  ghost predicate AllOk(db: Db, known: Known, zs: seq<Cmd>) {
    forall z :: z in zs ==> TokenOk(db, known, z)
  }

  /** No operation takes a mapped address away from its card. */
  lemma GrowsKeepsOk(db: Db, db': Db, known: Known, z: Cmd)
    requires Index(db) && Grows(db, db') && TokenOk(db, known, z)
    ensures TokenOk(db', known, z)
  {
  }

  lemma QueueInv(g: Gate, known: Known, zs: seq<Cmd>)
    requires TokenInv(g, known) && AllOk(g.db, known, zs)
    ensures TokenInv(Queue(g, zs), known)
  {
    InCmdsWaits(g.q, zs);
  }

  lemma SetTokenOk(db: Db, known: Known, q: Class, d: DevId, addr: Word, t: Token, revert: bool)
    requires addr >= START_TICKET_BOUND && addr in db.mapping && Allowed(known, d, revert)
    requires db.mapping[addr] == t.cid || (t.cid == 0 && 0 in db.token)
    ensures AllOk(db, known, SetToken(q, d, addr, TokenRecord(t, revert)))
  {
    var record := TokenRecord(t, revert);
    var data := [0x00, 0xA0, 8] + ToBe16(addr) + record;
    Be16RoundTrip([0x00, 0xA0, 8], addr, record);
    TokenDataBytes(addr, record);
    var data1 := data[0 := 1];
    assert Begin(data1) == addr && data1[5..11] == data[5..11];
  }

  lemma TokenDataBytes(addr: Word, record: Rec)
    ensures var data := [0x00, 0xA0, 8] + ToBe16(addr) + record;
            |data| == 13 && data[5..11] == record[..6]
  {
  }

  lemma NoTokens(db: Db, known: Known, zs: seq<Cmd>)
    requires forall z :: z in zs ==> z.target != TARGET_SET_TOKEN && (known.spared ==> SparesSlots(z))
    ensures AllOk(db, known, zs)
  {
  }

  /** The library's other writes to token memory stay below the first slot. */
  lemma SetTokenBoundSpares(q: Class, d: DevId, addr: Word)
    ensures forall z :: z in SetTokenBound(q, d, addr) ==> z.target != TARGET_SET_TOKEN && SparesSlots(z)
  {
    var data := [0x00, 0xA0, 2, 0x00, 0xBE] + ToBe16(addr);
    assert data[3] == 0 && data[4] == 0xBE && data[2] == 2;
    assert data[0 := 1][3] == 0 && data[0 := 1][4] == 0xBE && data[0 := 1][2] == 2;
  }

  lemma SetTimesSpares(q: Class, d: DevId)
    ensures forall z :: z in SetTimes(q, d) ==> z.target != TARGET_SET_TOKEN && SparesSlots(z)
  {
    var times := [0x00, 0xA0, 2, 0x00, 0x00] + [150, 200, 0, 0];
    assert times[2] == 2 && times[3] == 0 && times[4] == 0;
    assert times[0 := 1][2] == 2 && times[0 := 1][3] == 0 && times[0 := 1][4] == 0;
  }

  lemma DevInitSpares(d: DevId, bound: Word, date: Rec)
    ensures forall z :: z in DevInit(d, bound, date) ==> z.target != TARGET_SET_TOKEN && SparesSlots(z)
  {
    SetTokenBoundSpares(Second, d, bound);
    SetTimesSpares(Second, d);
    var data := [0x00, 0xD0, 8, 0x00, 0x00] + date;
    assert data[1] == 0xD0;
    assert forall z :: z in GetTokenBound(Second, d, NoHandler) + GetTimes(Second, d) ==> SparesSlots(z);
  }

  // ----- adding cards -----

  /** The address a card is about to be written to belongs to it, or is refused. */
  predicate Settled(db: Db, t: Token) {
    && START_TICKET_BOUND <= t.addr < U16 && t.addr in db.mapping
    && (db.mapping[t.addr] == t.cid || Taken(db, t.addr, t.cid))
  }

  lemma AddCidInv(g: Gate, known: Known, d: DevId, t: Token)
    requires TokenInv(g, known) && Settled(g.db, t)
    ensures TokenInv(AddCid(g, d, t).0, known) && AddCid(g, d, t).0.db == g.db
    ensures AddCid(g, d, t).1 <==> !Taken(g.db, t.addr, t.cid)
  {
    AddCidForm(g, d, t);
    if !Taken(g.db, t.addr, t.cid) {
      var zs := SetToken(Second, d, t.addr, TokenRecord(t, DevAt(g, d).revert));
      SetTokenOk(g.db, known, Second, d, t.addr, t, DevAt(g, d).revert);
      QueueInv(g, known, zs);
      RaiseBoundInv(Queue(g, zs), known, d, (t.addr + TICKET_SIZE) % U16);
    }
  }

  lemma RaiseBoundInv(g: Gate, known: Known, d: DevId, bound: Word)
    requires TokenInv(g, known)
    ensures TokenInv(RaiseBound(g, d, bound), known) && RaiseBound(g, d, bound).db == g.db
  {
    var g1 := SetDev(g, d, DevAt(g, d).(boundToken := bound)).(maxBound := Max(g.maxBound, bound));
    assert TokenInv(g1, known);
    SetTokenBoundSpares(Second, d, bound);
    NoTokens(g.db, known, SetTokenBound(Second, d, bound));
    QueueInv(g1, known, SetTokenBound(Second, d, bound));
  }

  lemma {:induction false} AddToDevicesInv(g: Gate, known: Known, t: Token, d: nat)
    requires TokenInv(g, known) && Settled(g.db, t) && d >= 1
    ensures TokenInv(AddToDevices(g, t, d).0, known) && AddToDevices(g, t, d).0.db == g.db
    decreases 256 - d
  {
    if d <= g.maxDevN {
      if !DevAt(g, d).active {
        AddToDevicesInv(g, known, t, d + 1);
      } else {
        AddCidInv(g, known, d, t);
        if AddCid(g, d, t).1 {
          AddToDevicesInv(AddCid(g, d, t).0, known, t, d + 1);
        }
      }
    }
  }

  lemma StoreInv(g: Gate, known: Known, t: Token)
    requires TokenInv(g, known) && START_TICKET_BOUND <= t.addr < U16
    ensures var g1 := g.(db := AddToken(g.db, t));
            TokenInv(g1, known) && Settled(g1.db, t) && Grows(g.db, g1.db)
  {
    var db1 := AddToken(g.db, t);
    AddTokenKeepsIndex(g.db, t);
    AddTokenFits(g.db, t);
    GrowsKeepsInv(g, known, db1);
  }

  lemma AddTokenFits(db: Db, t: Token)
    requires AddrsFit(db) && START_TICKET_BOUND <= t.addr < U16
    ensures AddrsFit(AddToken(db, t))
  {
  }

  lemma GrowsKeepsInv(g: Gate, known: Known, db: Db)
    requires TokenInv(g, known) && Grows(g.db, db) && Index(db) && AddrsFit(db)
    ensures TokenInv(g.(db := db), known)
  {
    forall z | Waits(g.q, z)
      ensures TokenOk(db, known, z)
    {
      GrowsKeepsOk(g.db, db, known, z);
    }
    forall k | known.since <= k < |g.wire|
      ensures TokenOk(db, known, g.wire[k])
    {
      GrowsKeepsOk(g.db, db, known, g.wire[k]);
    }
  }

  lemma AddCidToAllInv(g: Gate, known: Known, t: Token)
    requires TokenInv(g, known) && t.addr < U16
    ensures TokenInv(AddCidToAll(g, t).0, known) && Grows(g.db, AddCidToAll(g, t).0.db)
  {
    var t1 := WithAddr(g, t);
    StoreInv(g, known, t1);
    AddToDevicesInv(g.(db := AddToken(g.db, t1)), known, t1, 1);
  }

  lemma AddTokenToAllInv(g: Gate, known: Known, cid: nat, attr: Byte, mask: Byte)
    requires TokenInv(g, known)
    ensures TokenInv(AddTokenToAll(g, cid, attr, mask).0, known)
    ensures Grows(g.db, AddTokenToAll(g, cid, attr, mask).0.db)
  {
    match TokenByCid(g.db, cid)
    case None =>
      var t := Token(cid, attr, mask, g.maxBound);
      StoreInv(g, known, t);
      AddToDevicesInv(g.(db := AddToken(g.db, t)), known, t, 1);
    case Some(t) =>
      AddToDevicesInv(g, known, t.(attr := attr, mask := mask), 1);
  }

  lemma StoredSettled(db: Db, c: nat)
    requires Index(db) && AddrsFit(db) && c in db.token
    ensures Settled(db, db.token[c])
    ensures db.mapping[db.token[c].addr] == c || c == 0
  {
  }

  lemma {:induction false} ReloadTokensOk(db: Db, known: Known, d: DevId, revert: bool, order: seq<nat>)
    requires Index(db) && AddrsFit(db) && Allowed(known, d, revert)
    requires forall c :: c in order ==> c in db.token
    ensures AllOk(db, known, ReloadTokens(db, d, revert, order))
  {
    if order != [] {
      var c, front := order[|order| - 1], order[..|order| - 1];
      var t := db.token[c];
      StoredSettled(db, c);
      SetTokenOk(db, known, First, d, t.addr, t, revert);
      ReloadTokensOk(db, known, d, revert, front);
      AllOkConcat(db, known, ReloadTokens(db, d, revert, front), SetToken(First, d, t.addr, TokenRecord(t, revert)));
      ReloadSnoc(db, d, revert, order);
    }
  }

  lemma AllOkConcat(db: Db, known: Known, a: seq<Cmd>, b: seq<Cmd>)
    requires AllOk(db, known, a) && AllOk(db, known, b)
    ensures AllOk(db, known, a + b)
  {
  }

  lemma ReloadInv(g: Gate, known: Known, d: DevId, order: seq<nat>)
    requires TokenInv(g, known) && forall c :: c in order ==> c in g.db.token
    ensures TokenInv(Reload(g, d, order), known)
  {
    ReloadTokensOk(g.db, known, d, DevAt(g, d).revert, order);
    QueueInv(g, known, ReloadCmds(g.db, d, DevAt(g, d).revert, order));
  }

  /** The poll handler's re-add of a card found in the database is never refused. */
  lemma ReAddNeverConflicts(g: Gate, d: DevId)
    requires Index(g.db) && AddrsFit(g.db) && DevAt(g, d).lastCid in g.db.token && DevAt(g, d).lastCid != 0
    ensures var t := g.db.token[DevAt(g, d).lastCid];
            Settled(g.db, t) && AddCid(Queue(g, [TurnOn(Second, d, 0)]), d, t).1
                             && AddCid(Queue(g, [TurnOn(Second, d, 1)]), d, t).1
  {
  }

  lemma AdmitCardInv(g: Gate, known: Known, d: DevId, ev: Byte)
    requires TokenInv(g, known)
    ensures TokenInv(AdmitCard(g, d, ev), known) && Grows(g.db, AdmitCard(g, d, ev).db)
  {
    match TokenByCid(g.db, DevAt(g, d).lastCid)
    case Some(t) =>
      NoTokens(g.db, known, [TurnOn(Second, d, ev % 2)]);
      QueueInv(g, known, [TurnOn(Second, d, ev % 2)]);
      StoredSettled(g.db, DevAt(g, d).lastCid);
      WriteOrReAddInv(Queue(g, [TurnOn(Second, d, ev % 2)]), known, d, t);
    case None =>
      AddCidToAllInv(g, known, Token(DevAt(g, d).lastCid, 0, 0xFF, 0));
  }

  lemma WriteOrReAddInv(g: Gate, known: Known, d: DevId, t: Token)
    requires TokenInv(g, known) && Settled(g.db, t)
    ensures var (g1, ok) := AddCid(g, d, t);
            var g' := if ok then g1 else AddCidToAll(g1, t.(addr := 0)).0;
            TokenInv(g', known) && Grows(g.db, g'.db)
  {
    AddCidInv(g, known, d, t);
    AddCidToAllInv(AddCid(g, d, t).0, known, t.(addr := 0));
  }

  // ----- the driver -----

  lemma SendInv(g: Gate, known: Known, z: Cmd)
    requires TokenInv(g, known) && TokenOk(g.db, known, z)
    ensures TokenInv(Send(g, z), known)
  {
  }

  lemma PutCmdInv(g: Gate, known: Known)
    requires TokenInv(g, known)
    ensures TokenInv(PutCmd(g), known) && PutCmd(g).db == g.db
  {
    if !Empty(g.q) {
      assert Waits(g.q, Head(g.q));
      assert forall z :: Waits(Rest(g.q), z) ==> Waits(g.q, z);
      SendInv(g.(q := Rest(g.q)), known, Head(g.q));
    }
  }

  /** The reply does not name another byte order for a device whose order is known. */
  predicate OrderKept(g: Gate, r: Reply, known: Known) {
    NamesOrder(g, r) ==> Allowed(known, r.src, InterfaceType(r.buff) > 0)
  }

  lemma ProcessInv(g: Gate, known: Known, r: Reply)
    requires TokenInv(g, known) && r.src == g.dev && OrderKept(g, r, known)
    ensures var g' := ProcessPortInput(g, r, CmdOf(r)).0; TokenInv(g', known) && Grows(g.db, g'.db)
  {
    match g.handler
    case LogHandler => LogReadInv(g, known, r);
    case PollHandler => PollInv(g, known, r, CmdOf(r));
    case NoHandler => NoteReplyInv(g, known, r);
  }

  lemma NoteReplyInv(g: Gate, known: Known, r: Reply)
    requires TokenInv(g, known) && r.src == g.dev && g.handler == NoHandler && OrderKept(g, r, known)
    ensures TokenInv(NoteReply(g, r, CmdOf(r)), known) && NoteReply(g, r, CmdOf(r)).db == g.db
  {
  }

  lemma LogReadInv(g: Gate, known: Known, r: Reply)
    requires TokenInv(g, known)
    ensures TokenInv(CbLogRead(g, r).0, known) && CbLogRead(g, r).0.db == g.db
  {
    if g.target == TARGET_GET_BUFF_ADDR {
      LogPointersInv(g, known, r);
    } else if g.target == TARGET_GET_BUFF_DATA {
      LogBlockInv(g, known, r);
    }
  }

  lemma LogPointersInv(g: Gate, known: Known, r: Reply)
    requires TokenInv(g, known)
    ensures TokenInv(LogPointers(g, r).0, known) && LogPointers(g, r).0.db == g.db
  {
    var up, down := FromBe16(r.buff, 0), FromBe16(r.buff, 2);
    if down <= MAX_LOG_BOUND && up <= MAX_LOG_BOUND {
      var dev := DevAt(g, r.src).(boundDown := down, boundUp := up);
      SetDevTokens(g, known, r.src, dev);
      SendInv(SetDev(g, r.src, dev), known, GetBuffData(Short, r.src, down, BlockLen(up, down)));
    }
  }

  lemma LogBlockInv(g: Gate, known: Known, r: Reply)
    requires TokenInv(g, known)
    ensures TokenInv(LogBlock(g, r), known) && LogBlock(g, r).db == g.db
  {
    var dev, n := DevAt(g, r.src), RecordCount(r);
    var dev' := AfterRecords(dev, g.db, Records(r.buff, n));
    SetDevTokens(g, known, r.src, dev');
    var y := SetBuffAddrDown(Short, r.src, NextDown(Min(dev.boundDown, MAX_LOG_BOUND), n));
    assert y.data[1] == 0xD0;
    SendInv(SetDev(g, r.src, dev'), known, y);
  }

  lemma PollInv(g: Gate, known: Known, r: Reply, cmdN: Byte)
    requires TokenInv(g, known)
    ensures TokenInv(CbGetPollResult(g, r, cmdN).0, known) && Grows(g.db, CbGetPollResult(g, r, cmdN).0.db)
  {
    if g.target == TARGET_GET_CID && cmdN == CMD_GET {
      var cid := Bin2Int(r.buff, if r.len < 0 then 8 else r.len, DevAt(g, r.src).revert);
      var dev := SeeCid(DevAt(g, r.src), cid);
      SetDevTokens(g, known, r.src, dev);
      SendInv(SetDev(g, r.src, dev), known, GetRegs(Short, r.src));
    } else if g.target == TARGET_GET_REGS && cmdN == CMD_REGS {
      var ev := r.buff[20];
      AdmitCardInv(g, known, r.src, ev);
      var g1 := if Changed(DevAt(g, r.src), ev) && IsNewCard(ev) then AdmitCard(g, r.src, ev) else g;
      SetDevTokens(g1, known, r.src, SeeRegs(DevAt(g1, r.src), ev));
    }
  }

  lemma ReadStartInv(g: Gate, known: Known)
    requires TokenInv(g, known)
    ensures TokenInv(ReadStart(g), known) && ReadStart(g).db == g.db
  {
    DevInitSpares(g.dev, g.maxBound, g.date);
    NoTokens(g.db, known, DevInit(g.dev, g.maxBound, g.date));
    var g1 := SetDev(g, g.dev, DevAt(g, g.dev).(active := true, timeouts := 0, inited := true)).(isExpected := false);
    QueueInv(g1, known, DevInit(g.dev, g.maxBound, g.date));
  }

  lemma FrameInInv(g: Gate, known: Known, r: Reply)
    requires TokenInv(g, known) && OrderKept(g, r, known)
    ensures TokenInv(FrameIn(g, r), known) && Grows(g.db, FrameIn(g, r).db)
  {
    ReadStartInv(g, known);
    DispatchInv(ReadStart(g), known, r);
  }

  lemma DispatchInv(g: Gate, known: Known, r: Reply)
    requires TokenInv(g, known) && OrderKept(g, r, known)
    ensures TokenInv(Dispatch(g, r), known) && Grows(g.db, Dispatch(g, r).db)
  {
    GrowsSelf(g.db);
    PutCmdInv(g, known);
    if r.src == g.dev && (IsAck(r) || !IsReplyFrame(r)) {
      DispatchProcesses(g, r);
      ProcessedInv(g, known, r);
    } else {
      assert Dispatch(g, r) == g || Dispatch(g, r) == PutCmd(g);
    }
  }

  lemma GrowsSelf(db: Db)
    ensures Grows(db, db)
  {
  }

  lemma DispatchProcesses(g: Gate, r: Reply)
    requires r.src == g.dev && (IsAck(r) || !IsReplyFrame(r))
    ensures var g' := ProcessPortInput(g, r, CmdOf(r)).0; Dispatch(g, r) == g' || Dispatch(g, r) == PutCmd(g')
  {
  }

  lemma ProcessedInv(g: Gate, known: Known, r: Reply)
    requires TokenInv(g, known) && r.src == g.dev && OrderKept(g, r, known)
    ensures var g' := ProcessPortInput(g, r, CmdOf(r)).0;
            && TokenInv(g', known) && Grows(g.db, g'.db)
            && TokenInv(PutCmd(g'), known) && Grows(g.db, PutCmd(g').db)
  {
    ProcessInv(g, known, r);
    PutCmdInv(ProcessPortInput(g, r, CmdOf(r)).0, known);
  }

  lemma TimerInv(g: Gate, known: Known, due: bool)
    requires TokenInv(g, known)
    ensures TokenInv(Timer(g, due), known) && Timer(g, due).db == g.db
  {
    var g1 := Expire(g);
    assert TokenInv(g1, known);
    if Empty(g1.q) {
      IdleInv(g1, known);
    } else {
      PutCmdInv(g1, known);
    }
  }

  lemma IdleInv(g: Gate, known: Known)
    requires TokenInv(g, known)
    ensures TokenInv(SendIdle(g), known) && SendIdle(g).db == g.db
  {
    var (devices, pos, found) := IdleScan(g.devices, g.idlePos, g.maxDevN, g.maxTimeouts);
    IdleScanCalm(g.devices, g.idlePos, g.maxDevN, g.maxTimeouts);
    assert forall d: DevId :: devices[d].revert == DevAt(g, d).revert by {
      assert forall d: DevId :: SameCards(g.devices[d], devices[d]);
    }
    SendInv(g.(devices := devices, idlePos := pos), known, PollCid(pos));
  }

  lemma {:induction false} LogTickInv(g: Gate, known: Known, d: nat)
    requires TokenInv(g, known) && d >= 1
    ensures TokenInv(LogTick(g, d), known) && LogTick(g, d).db == g.db
    decreases 256 - d
  {
    if d <= g.maxDevN {
      var zs := [GetBuffAddr(Second, d, LogHandler)];
      NoTokens(g.db, known, zs);
      QueueInv(g, known, zs);
      LogTickInv(if DevAt(g, d).active then Queue(g, zs) else g, known, d + 1);
    }
  }

  // ----- reading records back -----

  /** The card id of a token record, read in byte order `revert`. */
  function CidIn(z: Cmd, revert: bool): nat
    requires |z.data| == 13
  {
    Bin2Int(z.data[5..11], 6, revert)
  }

  predicate Palindrome(s: seq<Byte>) {
    Reverse(s) == s
  }

  /** Six bytes written in one byte order give the card's low 48 bits in another if and only
      if the orders are the same, or it does not matter. */
  lemma OrderMatters(cid: nat, queued: bool, now: bool)
    ensures Bin2Int(Int2BinBytes(cid, 6, queued), 6, now) == cid % Pow256(6)
            <==> queued == now || Palindrome(Bytes(cid, 6))
  {
    var s, w := Int2BinBytes(cid, 6, queued), Bytes(cid, 6);
    Bin2IntUndoesInt2Bin(cid, 6, queued);
    Bin2IntMeaning(s, 6, now);
    Int2BinMeaning(cid, 6, queued);
    ValueOfBytes(cid, 6);
    assert s[..6] == s && Reverse(Reverse(w)) == w;
    BytesOfValueExact(w, 6);
    BytesOfValueExact(Reverse(w), 6);
  }

  /** So for both commands of a token record written in byte order `queued`. */
  lemma RecordReadsBack(q: Class, d: DevId, addr: Word, t: Token, queued: bool, now: bool)
    ensures forall z :: z in SetToken(q, d, addr, TokenRecord(t, queued)) ==>
              |z.data| == 13 &&
              (CidIn(z, now) == t.cid % Pow256(6) <==> queued == now || Palindrome(Bytes(t.cid, 6)))
  {
    var record := TokenRecord(t, queued);
    OrderMatters(t.cid, queued, now);
    TokenDataBytes(addr, record);
    var data := [0x00, 0xA0, 8] + ToBe16(addr) + record;
    assert data[0 := 1][5..11] == data[5..11];
  }

  lemma AddCidQueues(g: Gate, d: DevId, t: Token)
    requires !Taken(g.db, TokenAddr(g, d, t), t.cid)
    ensures forall z :: z in SetToken(Second, d, TokenAddr(g, d, t), TokenRecord(t, DevAt(g, d).revert)) ==>
              Waits(AddCid(g, d, t).0.q, z)
    ensures AddCid(g, d, t).0.handler == g.handler && AddCid(g, d, t).0.db == g.db
  {
    var addr := TokenAddr(g, d, t);
    var zs := SetToken(Second, d, addr, TokenRecord(t, DevAt(g, d).revert));
    InCmdsWaits(g.q, zs);
    InCmdsWaits(InCmds(g.q, zs), SetTokenBound(Second, d, (addr + TICKET_SIZE) % U16));
  }

  lemma OrderTurned(g: Gate, g1: Gate, d: DevId, r: Reply)
    requires Calm(g, g1) && g1.handler == NoHandler && r.src == d && CmdOf(r) == CMD_INFO
    ensures var g' := ProcessPortInput(g1, r, CmdOf(r)).0;
            g'.q == g1.q && DevAt(g', d).revert == (InterfaceType(r.buff) > 0)
  {
  }

  /** An information reply that turns a device's byte order while a record waits leaves the
      record as it was: the device will read another card from it, unless the card's bytes
      are the same both ways. */
  lemma InfoReplyStrandsRecord(g: Gate, d: DevId, t: Token, r: Reply)
    requires START_TICKET_BOUND <= t.addr < U16 && !Taken(g.db, t.addr, t.cid)
    requires g.handler == NoHandler && r.src == d && CmdOf(r) == CMD_INFO
    requires (InterfaceType(r.buff) > 0) != DevAt(g, d).revert
    ensures var g' := ProcessPortInput(AddCid(g, d, t).0, r, CmdOf(r)).0;
            forall z :: z in SetToken(Second, d, t.addr, TokenRecord(t, DevAt(g, d).revert)) ==>
              Waits(g'.q, z) && |z.data| == 13 &&
              (CidIn(z, DevAt(g', d).revert) == t.cid % Pow256(6) <==> Palindrome(Bytes(t.cid, 6)))
  {
    assert TokenAddr(g, d, t) == t.addr;
    AddCidQueues(g, d, t);
    AddCidCalm(g, d, t);
    OrderTurned(g, AddCid(g, d, t).0, d, r);
    RecordReadsBack(Second, d, t.addr, t, DevAt(g, d).revert, !DevAt(g, d).revert);
  }

  /** Card 1 is such a card: both its records will be read as 2 to the 40th. */
  lemma CardOneStranded(g: Gate, d: DevId, r: Reply)
    requires g.handler == NoHandler && r.src == d && CmdOf(r) == CMD_INFO && InterfaceType(r.buff) > 0
    requires !DevAt(g, d).revert && !Taken(g.db, START_TICKET_BOUND, 1)
    ensures var t := Token(1, 0, 0xFF, START_TICKET_BOUND);
            var g' := ProcessPortInput(AddCid(g, d, t).0, r, CmdOf(r)).0;
            forall z :: z in SetToken(Second, d, t.addr, TokenRecord(t, false)) ==>
              Waits(g'.q, z) && |z.data| == 13 && CidIn(z, DevAt(g', d).revert) != 1
  {
    InfoReplyStrandsRecord(g, d, Token(1, 0, 0xFF, START_TICKET_BOUND), r);
    CardOneBytes();
    ModSmall(1);
  }

  lemma CardOneBytes()
    ensures !Palindrome(Bytes(1, 6))
  {
    assert Bytes(1, 6)[0] == 1;
    assert Bytes(1, 6) == [1] + Bytes(0, 5) && Bytes(0, 5)[4] == 0 by {
      ZeroBytes(5);
    }
    assert Reverse(Bytes(1, 6))[0] == Bytes(1, 6)[5] == 0;
  }

  lemma ModSmall(a: nat)
    requires a < 256
    ensures a % Pow256(6) == a
  {
    assert Pow256(6) == 256 * Pow256(5) && Pow256(5) >= 1;
  }

  lemma {:induction false} ZeroBytes(n: nat)
    ensures Bytes(0, n) == Zeros(n)
  {
    if n > 0 {
      ZeroBytes(n - 1);
      assert Zeros(n) == [0] + Zeros(n - 1);
    }
  }

  /** What the invariant says of a record for a device whose byte order is known: read in it,
      it gives the low 48 bits of the card its address is mapped to, or card 0 where the
      database has one. */
  lemma TokenOkMeaning(db: Db, known: Known, z: Cmd)
    requires RecordOk(db, known, z) && z.dst in known.orders
    ensures |z.data| == 13 && Begin(z.data) in db.mapping
    ensures CidIn(z, known.orders[z.dst]) == db.mapping[Begin(z.data)] % Pow256(6)
            || (0 in db.token && CidIn(z, known.orders[z.dst]) == 0)
  {
    Bin2IntUndoesInt2Bin(db.mapping[Begin(z.data)], 6, known.orders[z.dst]);
    Bin2IntUndoesInt2Bin(0, 6, known.orders[z.dst]);
    assert 0 % Pow256(6) == 0;
  }

  // ----- cmd_add_cid on its own -----

  /** Writing one device on its own is in order: the address chosen is refused, or is mapped
      already to a card with the same six bytes. */
  predicate Chosen(g: Gate, d: DevId, t: Token) {
    var addr := TokenAddr(g, d, t);
    || Taken(g.db, addr, t.cid)
    || (addr >= START_TICKET_BOUND && addr in g.db.mapping && g.db.mapping[addr] % Pow256(6) == t.cid % Pow256(6))
  }

  /** `cmd_add_cid` does not look whether its address is mapped at all. Called on its own it
      keeps the records right if and only if its choice is in order. */
  lemma AddCidKeepsRecords(g: Gate, known: Known, d: DevId, t: Token)
    requires TokenInv(g, known)
    ensures TokenInv(AddCid(g, d, t).0, known) <==> Chosen(g, d, t)
  {
    var addr := TokenAddr(g, d, t);
    if !Taken(g.db, addr, t.cid) {
      if Chosen(g, d, t) {
        ChosenInv(g, known, d, t);
      } else {
        AddCidMisplaces(g, known, d, t);
      }
    }
  }

  lemma ChosenInv(g: Gate, known: Known, d: DevId, t: Token)
    requires TokenInv(g, known) && Chosen(g, d, t) && !Taken(g.db, TokenAddr(g, d, t), t.cid)
    ensures TokenInv(AddCid(g, d, t).0, known)
  {
    var addr := TokenAddr(g, d, t);
    var t1 := t.(cid := g.db.mapping[addr], addr := addr);
    SameRecord(t, t1, DevAt(g, d).revert);
    OwnAddr(g, d, t1);
    SameWrite(g, d, t, t1);
    AddCidInv(g, known, d, t1);
  }

  lemma OwnAddr(g: Gate, d: DevId, t: Token)
    requires START_TICKET_BOUND <= t.addr < U16
    ensures TokenAddr(g, d, t) == t.addr
  {
  }

  lemma SameRecord(t: Token, t1: Token, revert: bool)
    requires t.cid % Pow256(6) == t1.cid % Pow256(6) && t.attr == t1.attr && t.mask == t1.mask
    ensures TokenRecord(t, revert) == TokenRecord(t1, revert)
  {
    SameLowBytes(t.cid, t1.cid, revert);
  }

  lemma SameWrite(g: Gate, d: DevId, t: Token, t1: Token)
    requires TokenAddr(g, d, t) == TokenAddr(g, d, t1)
    requires TokenRecord(t, DevAt(g, d).revert) == TokenRecord(t1, DevAt(g, d).revert)
    requires Taken(g.db, TokenAddr(g, d, t), t.cid) == Taken(g.db, TokenAddr(g, d, t), t1.cid)
    ensures AddCid(g, d, t) == AddCid(g, d, t1)
  {
  }

  lemma SameLowBytes(a: nat, b: nat, revert: bool)
    requires a % Pow256(6) == b % Pow256(6)
    ensures Int2BinBytes(a, 6, revert) == Int2BinBytes(b, 6, revert)
  {
    Bin2IntUndoesInt2Bin(a, 6, revert);
    Bin2IntUndoesInt2Bin(b, 6, revert);
    Int2BinUndoesBin2Int(Int2BinBytes(a, 6, revert), revert);
    Int2BinUndoesBin2Int(Int2BinBytes(b, 6, revert), revert);
  }

  /** A choice out of order queues a record for an address that is not mapped to its card. */
  lemma AddCidMisplaces(g: Gate, known: Known, d: DevId, t: Token)
    requires !Chosen(g, d, t)
    ensures exists z :: Waits(AddCid(g, d, t).0.q, z) && !TokenOk(AddCid(g, d, t).0.db, known, z)
  {
    var addr, record := TokenAddr(g, d, t), TokenRecord(t, DevAt(g, d).revert);
    var z := SetToken(Second, d, addr, record)[0];
    AddCidQueues(g, d, t);
    Be16RoundTrip([0x00, 0xA0, 8], addr, record);
    TokenDataBytes(addr, record);
    if TokenOk(g.db, known, z) {
      NoCardBytes(t.cid, DevAt(g, d).revert);
      assert false;
    }
  }

  /** Only a card whose low 48 bits are 0 has the bytes of card 0, in either order. */
  lemma NoCardBytes(cid: nat, revert: bool)
    requires cid % Pow256(6) != 0
    ensures Int2BinBytes(cid, 6, revert) != Int2BinBytes(0, 6, false)
    ensures Int2BinBytes(cid, 6, revert) != Int2BinBytes(0, 6, true)
  {
    Int2BinMeaning(0, 6, false);
    Int2BinMeaning(0, 6, true);
    ZeroBytes(6);
    assert Reverse(Zeros(6)) == Zeros(6);
    Bin2IntUndoesInt2Bin(cid, 6, revert);
    Bin2IntUndoesInt2Bin(0, 6, revert);
    assert 0 % Pow256(6) == 0;
  }

  // ----- the allocator's seed -----

  /** A token record waits that names an unmapped address. */
  ghost predicate Misplaced(g: Gate, addr: nat) {
    addr !in g.db.mapping &&
    exists z :: Waits(g.q, z) && z.target == TARGET_SET_TOKEN && |z.data| == 13 && Begin(z.data) == addr
  }

  lemma MisplacedIsWrong(g: Gate, known: Known, addr: nat)
    requires Misplaced(g, addr)
    ensures exists z :: Waits(g.q, z) && !TokenOk(g.db, known, z)
  {
  }

  /** With the global bound below the first slot, an add without an address goes there in the
      database, and to the first active device at that device's own bound. If nothing is mapped
      at that, the record names an unmapped address. */
  lemma LowBoundMisplaces(g: Gate, t: Token, d: DevId)
    requires g.maxBound < START_TICKET_BOUND && t.addr < START_TICKET_BOUND
    requires 1 <= d <= g.maxDevN && DevAt(g, d).active && forall k: DevId :: 1 <= k < d ==> !DevAt(g, k).active
    requires DevAt(g, d).boundToken !in g.db.mapping && DevAt(g, d).boundToken >= START_TICKET_BOUND
    ensures AddCidToAll(g, t).0.db == AddToken(g.db, t.(addr := g.maxBound))
    ensures Misplaced(AddCidToAll(g, t).0, DevAt(g, d).boundToken)
  {
    var t1 := WithAddr(g, t);
    var g1 := g.(db := AddToken(g.db, t1));
    assert forall k: DevId :: DevAt(g1, k) == DevAt(g, k);
    FirstActive(g1, t1, 1, d);
    WrittenAtBound(g1, t1, d);
  }

  lemma WrittenAtBound(g: Gate, t: Token, d: DevId)
    requires t.addr < START_TICKET_BOUND && DevAt(g, d).boundToken !in g.db.mapping
    ensures var g' := AddToDevices(AddCid(g, d, t).0, t, d + 1).0;
            g'.db == g.db && Misplaced(g', DevAt(g, d).boundToken)
  {
    var addr, record := DevAt(g, d).boundToken, TokenRecord(t, DevAt(g, d).revert);
    var z := SetToken(Second, d, addr, record)[0];
    Be16RoundTrip([0x00, 0xA0, 8], addr, record);
    TokenDataBytes(addr, record);
    AddCidQueues(g, d, t);
    LoopKeepsWaiting(AddCid(g, d, t).0, t, d + 1, z);
  }

  lemma {:induction false} FirstActive(g: Gate, t: Token, k: nat, d: DevId)
    requires 1 <= k <= d <= g.maxDevN && DevAt(g, d).active && forall e: DevId :: k <= e < d ==> !DevAt(g, e).active
    requires !Taken(g.db, TokenAddr(g, d, t), t.cid)
    ensures AddToDevices(g, t, k) == AddToDevices(AddCid(g, d, t).0, t, d + 1)
    decreases d - k
  {
    if k < d {
      FirstActive(g, t, k + 1, d);
    }
  }

  lemma {:induction false} LoopKeepsWaiting(g: Gate, t: Token, d: nat, z: Cmd)
    requires d >= 1 && Waits(g.q, z)
    ensures Waits(AddToDevices(g, t, d).0.q, z) && AddToDevices(g, t, d).0.db == g.db
    decreases 256 - d
  {
    if d <= g.maxDevN {
      if !DevAt(g, d).active {
        LoopKeepsWaiting(g, t, d + 1, z);
      } else {
        AddCidKeepsWaiting(g, d, t, z);
        if AddCid(g, d, t).1 {
          LoopKeepsWaiting(AddCid(g, d, t).0, t, d + 1, z);
        }
      }
    }
  }

  lemma AddCidKeepsWaiting(g: Gate, d: DevId, t: Token, z: Cmd)
    requires Waits(g.q, z)
    ensures Waits(AddCid(g, d, t).0.q, z) && AddCid(g, d, t).0.db == g.db
  {
    var addr := TokenAddr(g, d, t);
    var zs := SetToken(Second, d, addr, TokenRecord(t, DevAt(g, d).revert));
    InCmdsWaits(g.q, zs);
    InCmdsWaits(InCmds(g.q, zs), SetTokenBound(Second, d, (addr + TICKET_SIZE) % U16));
  }
}
