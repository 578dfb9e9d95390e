/** What a card at the reader sets off (src/gp_processor.c): which doors are opened, which
    records written, which cards stored. */
module DoorLaws {
  import opened LibGate
  import opened GateState
  import opened GpQueue
  import opened DbLayer
  import opened AdTarget
  import opened AdCmd
  import opened CardBytes
  import opened CardPoll
  import opened LogRing
  import opened GpProcessor
  import opened GpLayer
  import opened TokenSafety
  import opened LineSystem
  import opened CardRuns
  import opened Allocator
  import opened ReloadDrain
  import opened WriteLaws

  // ----- how often a command is about -----

  /** How often a command has been sent or waits. */
  ghost function About(g: Gate, z: Cmd): nat {
    multiset(g.wire)[z] + multiset(g.q.first)[z] + multiset(g.q.second)[z]
  }

  /** A command that opens a door. */
  predicate Opens(z: Cmd) {
    z.target == TARGET_TURN_ON
  }

  /** The opening of door `subdev` of a device. */
  predicate OpensDoor(z: Cmd, d: DevId, subdev: Byte) {
    Opens(z) && z.dst == d && z.cmdN == 0x07 && z.data == [subdev] && z.queue == Second
  }

  /** No door has been opened, nor has an opening been lost. */
  ghost predicate SameDoors(g: Gate, g': Gate) {
    forall z: Cmd :: Opens(z) ==> About(g', z) == About(g, z)
  }

  /** Just this one has. */
  ghost predicate OneDoor(g: Gate, g': Gate, door: Cmd) {
    forall z: Cmd :: Opens(z) ==> About(g', z) == About(g, z) + (if z == door then 1 else 0)
  }

  lemma SameDoorsTrans(a: Gate, b: Gate, c: Gate)
    requires SameDoors(a, b) && SameDoors(b, c)
    ensures SameDoors(a, c)
  {
  }

  lemma {:induction false} InCmdsAbout(q: Queues, zs: seq<Cmd>, z: Cmd)
    ensures multiset(InCmds(q, zs).first)[z] + multiset(InCmds(q, zs).second)[z]
            == multiset(q.first)[z] + multiset(q.second)[z] + multiset(zs)[z]
    decreases zs
  {
    if zs != [] {
      InCmdsAbout(InCmd(q, zs[0]), zs[1..], z);
      assert zs == [zs[0]] + zs[1..];
    }
  }

  lemma QueueAbout(g: Gate, zs: seq<Cmd>, z: Cmd)
    ensures About(Queue(g, zs), z) == About(g, z) + multiset(zs)[z]
  {
    InCmdsAbout(g.q, zs, z);
  }

  lemma QueueSameDoors(g: Gate, zs: seq<Cmd>)
    requires forall z :: z in zs ==> !Opens(z)
    ensures SameDoors(g, Queue(g, zs))
  {
    forall z: Cmd | Opens(z)
      ensures About(Queue(g, zs), z) == About(g, z)
    {
      QueueAbout(g, zs, z);
    }
  }

  lemma SendSameDoors(g: Gate, z: Cmd)
    requires !Opens(z)
    ensures SameDoors(g, Send(g, z))
  {
  }

  /** Sending a waiting command loses and repeats nothing. */
  lemma PutSameDoors(g: Gate)
    ensures SameDoors(g, PutCmd(g))
  {
    if !Empty(g.q) {
      if g.q.first != [] {
        assert g.q.first == [g.q.first[0]] + g.q.first[1..];
      } else {
        assert g.q.second == [g.q.second[0]] + g.q.second[1..];
      }
    }
  }

  lemma SameQueuesSameDoors(g: Gate, g': Gate)
    requires g'.q == g.q && g'.wire == g.wire
    ensures SameDoors(g, g')
  {
  }

  // ----- adding cards opens no door -----

  lemma AddCidSameDoors(g: Gate, d: DevId, t: Token)
    ensures SameDoors(g, AddCid(g, d, t).0)
  {
    var addr := TokenAddr(g, d, t);
    if !Taken(g.db, addr, t.cid) {
      var g1 := Queue(g, SetToken(Second, d, addr, TokenRecord(t, DevAt(g, d).revert)));
      QueueSameDoors(g, SetToken(Second, d, addr, TokenRecord(t, DevAt(g, d).revert)));
      RaiseSameDoors(g1, d, (addr + TICKET_SIZE) % U16);
      SameDoorsTrans(g, g1, RaiseBound(g1, d, (addr + TICKET_SIZE) % U16));
    }
  }

  lemma RaiseSameDoors(g: Gate, d: DevId, bound: Word)
    ensures SameDoors(g, RaiseBound(g, d, bound))
  {
    var g1 := SetDev(g, d, DevAt(g, d).(boundToken := bound)).(maxBound := Max(g.maxBound, bound));
    SameQueuesSameDoors(g, g1);
    QueueSameDoors(g1, SetTokenBound(Second, d, bound));
    SameDoorsTrans(g, g1, RaiseBound(g, d, bound));
  }

  lemma {:induction false} AddToDevicesSameDoors(g: Gate, t: Token, d: nat)
    requires d >= 1
    ensures SameDoors(g, AddToDevices(g, t, d).0)
    decreases 256 - d
  {
    if d <= g.maxDevN {
      if !DevAt(g, d).active {
        AddToDevicesSameDoors(g, t, d + 1);
      } else {
        var (g1, ok) := AddCid(g, d, t);
        AddCidSameDoors(g, d, t);
        if ok {
          AddToDevicesSameDoors(g1, t, d + 1);
          SameDoorsTrans(g, g1, AddToDevices(g1, t, d + 1).0);
        }
      }
    }
  }

  lemma AddCidToAllSameDoors(g: Gate, t: Token)
    ensures SameDoors(g, AddCidToAll(g, t).0)
  {
    var g1 := g.(db := AddToken(g.db, WithAddr(g, t)));
    SameQueuesSameDoors(g, g1);
    AddToDevicesSameDoors(g1, WithAddr(g, t), 1);
    SameDoorsTrans(g, g1, AddCidToAll(g, t).0);
  }

  lemma AddTokenToAllSameDoors(g: Gate, cid: nat, attr: Byte, mask: Byte)
    ensures SameDoors(g, AddTokenToAll(g, cid, attr, mask).0)
  {
    match TokenByCid(g.db, cid)
    case None =>
      var t := Token(cid, attr, mask, g.maxBound);
      var g1 := g.(db := AddToken(g.db, t));
      SameQueuesSameDoors(g, g1);
      AddToDevicesSameDoors(g1, t, 1);
      SameDoorsTrans(g, g1, AddToDevices(g1, t, 1).0);
    case Some(t) => AddToDevicesSameDoors(g, t.(attr := attr, mask := mask), 1);
  }

  // ----- a register reading -----

  /** The reading is to be acted on: another event than at the last one, or a new card since. */
  predicate ReadingDue(dev: Dev, ev: Byte) {
    dev.newCid || dev.lastEv != ev
  }

  /** The event of a card asking to be let in, at door 0 or 1. */
  predicate AtDoor(ev: Byte) {
    ev == 2 || ev == 3
  }

  /** Nothing has been queued, sent or stored. */
  predicate Untouched(g: Gate, g': Gate) {
    g'.q == g.q && g'.wire == g.wire && g'.db == g.db && g'.maxBound == g.maxBound
  }

  /** Commands for one device that open no door, the last record for a card's slot in each bank
      with the card's id, attributes and mask. */
  ghost predicate RecordsFor(zs: seq<Cmd>, d: DevId, t: Token, revert: bool) {
    && (forall z :: z in zs ==> z.dst == d && !Opens(z))
    && (forall bank: Byte :: bank <= 1 ==>
          LastRecord(zs, d, bank, t.addr).Some? && RecordSays(LastRecord(zs, d, bank, t.addr).value, t, revert))
  }

  /** One door has been opened. Behind its command wait the card's records for the same device;
      the database stays. */
  ghost predicate LetInWith(g: Gate, g': Gate, d: DevId, ev: Byte, t: Token, door: Cmd, more: seq<Cmd>) {
    && OpensDoor(door, d, if ev == 3 then 1 else 0) && OneDoor(g, g', door)
    && g'.q == g.q.(second := g.q.second + [door] + more) && g'.db == g.db
    && RecordsFor(more, d, t, g.devices[d].revert)
  }

  ghost predicate LetIn(g: Gate, g': Gate, d: DevId, ev: Byte, t: Token) {
    exists door, more :: LetInWith(g, g', d, ev, t, door, more)
  }

  /** A reading that is not due, or not of a card at a door, touches nothing. */
  lemma IdleReading(g: Gate, r: Reply)
    requires g.target == TARGET_GET_REGS
    requires !ReadingDue(DevAt(g, r.src), r.buff[20]) || !AtDoor(r.buff[20])
    ensures Untouched(g, CbGetPollResult(g, r, CMD_REGS).0)
  {
  }

  /** One of a known card lets it in. */
  lemma KnownCardLetIn(g: Gate, r: Reply)
    requires g.target == TARGET_GET_REGS && DbSound(g.db)
    requires ReadingDue(DevAt(g, r.src), r.buff[20]) && AtDoor(r.buff[20])
    requires DevAt(g, r.src).lastCid in g.db.token && DevAt(g, r.src).lastCid != 0
    ensures var g' := CbGetPollResult(g, r, CMD_REGS).0;
            LetIn(g, g', r.src, r.buff[20], g.db.token[DevAt(g, r.src).lastCid])
  {
    var d, ev := r.src, r.buff[20];
    var t := g.db.token[DevAt(g, d).lastCid];
    KnownAdmitted(g, d, ev);
    LetInBy(g, d, ev, t, TurnOn(Second, d, ev % 2));
    RegsAsAdmitted(g, r);
    SameLetIn(g, AdmitCard(g, d, ev), CbGetPollResult(g, r, CMD_REGS).0, d, ev, t);
  }

  lemma RegsAsAdmitted(g: Gate, r: Reply)
    requires g.target == TARGET_GET_REGS && ReadingDue(DevAt(g, r.src), r.buff[20]) && AtDoor(r.buff[20])
    ensures Untouched(AdmitCard(g, r.src, r.buff[20]), CbGetPollResult(g, r, CMD_REGS).0)
  {
  }

  lemma KnownAdmitted(g: Gate, d: DevId, ev: Byte)
    requires DbSound(g.db) && DevAt(g, d).lastCid in g.db.token && DevAt(g, d).lastCid != 0
    ensures var t := g.db.token[DevAt(g, d).lastCid];
            && START_TICKET_BOUND <= t.addr < U16 && !Taken(g.db, t.addr, t.cid)
            && AdmitCard(g, d, ev) == AddCid(Queue(g, [TurnOn(Second, d, ev % 2)]), d, t).0
  {
    var t, g0 := g.db.token[DevAt(g, d).lastCid], Queue(g, [TurnOn(Second, d, ev % 2)]);
    StoredSettled(g.db, DevAt(g, d).lastCid);
    AddCidForm(g0, d, t);
  }

  lemma SameLetIn(g: Gate, g1: Gate, g': Gate, d: DevId, ev: Byte, t: Token)
    requires LetIn(g, g1, d, ev, t) && Untouched(g1, g')
    ensures LetIn(g, g', d, ev, t)
  {
    var door, more :| LetInWith(g, g1, d, ev, t, door, more);
    SameQueuesSameDoors(g1, g');
    SameOneDoor(g, g1, g', door);
    assert LetInWith(g, g', d, ev, t, door, more);
  }

  lemma SameOneDoor(g: Gate, g1: Gate, g': Gate, door: Cmd)
    requires OneDoor(g, g1, door) && SameDoors(g1, g')
    ensures OneDoor(g, g', door)
  {
  }

  lemma LetInBy(g: Gate, d: DevId, ev: Byte, t: Token, door: Cmd)
    requires START_TICKET_BOUND <= t.addr < U16 && !Taken(g.db, t.addr, t.cid) && AtDoor(ev)
    requires door == TurnOn(Second, d, ev % 2)
    ensures LetIn(g, AddCid(Queue(g, [door]), d, t).0, d, ev, t)
  {
    var g0 := Queue(g, [door]);
    var g1 := AddCid(g0, d, t).0;
    AddCidAppends(g0, d, t, t.addr);
    var more := Appended(g0, g1);
    MoreBehind(g, g1, door, more);
    CardsWritten(g0, d, t);
    OneOpening(g, d, t, door);
    assert LetInWith(g, g1, d, ev, t, door, more);
  }

  lemma MoreBehind(g: Gate, g1: Gate, door: Cmd, more: seq<Cmd>)
    requires door.queue == Second && Appends(Queue(g, [door]), g1) && more == Appended(Queue(g, [door]), g1)
    ensures g1.q == g.q.(second := g.q.second + [door] + more)
  {
    InCmdsOne(g.q, door);
  }

  lemma CardsWritten(g: Gate, d: DevId, t: Token)
    requires START_TICKET_BOUND <= t.addr < U16 && !Taken(g.db, t.addr, t.cid)
    ensures var g' := AddCid(g, d, t).0;
            Appends(g, g') && RecordsFor(Appended(g, g'), d, t, g.devices[d].revert)
  {
    AddCidAppends(g, d, t, t.addr);
    AddCidOnlyTo(g, d, t, t.addr);
    RecordIsSaid(t, DevAt(g, d).revert);
    var zs := Appended(g, AddCid(g, d, t).0);
    forall bank: Byte | bank <= 1
      ensures LastRecord(zs, d, bank, t.addr) == Some(TokenRecord(t, DevAt(g, d).revert))
    {
      LastWritten(g, d, t, bank);
    }
  }

  lemma LastWritten(g: Gate, d: DevId, t: Token, bank: Byte)
    requires START_TICKET_BOUND <= t.addr < U16 && !Taken(g.db, t.addr, t.cid) && bank <= 1
    ensures var g' := AddCid(g, d, t).0;
            && Appends(g, g')
            && LastRecord(Appended(g, g'), d, bank, t.addr) == Some(TokenRecord(t, DevAt(g, d).revert))
  {
    var zs := SetToken(Second, d, t.addr, TokenRecord(t, DevAt(g, d).revert));
    var bound := SetTokenBound(Second, d, (t.addr + TICKET_SIZE) % U16);
    AddCidAppends(g, d, t, t.addr);
    LastOfPair(d, t.addr, TokenRecord(t, DevAt(g, d).revert), d, bank);
    LastRecordConcat(zs, bound, d, bank, t.addr);
    LastRecordConcat(zs, [], d, bank, t.addr);
    NoneWithout(bound, d, bank, t.addr);
  }

  lemma OneOpening(g: Gate, d: DevId, t: Token, door: Cmd)
    requires Opens(door)
    ensures OneDoor(g, AddCid(Queue(g, [door]), d, t).0, door)
  {
    var g0 := Queue(g, [door]);
    AddCidSameDoors(g0, d, t);
    forall z: Cmd | Opens(z)
      ensures About(AddCid(g0, d, t).0, z) == About(g, z) + (if z == door then 1 else 0)
    {
      QueueAbout(g, [door], z);
    }
  }

  /** A known card that no longer owns its address, as a card 0 can, is given the global bound as
      its address instead, with its attributes as they were. */
  lemma RefusedCardMoved(g: Gate, r: Reply)
    requires g.target == TARGET_GET_REGS && g.maxBound >= START_TICKET_BOUND && DbSound(g.db)
    requires ReadingDue(DevAt(g, r.src), r.buff[20]) && AtDoor(r.buff[20])
    requires DevAt(g, r.src).lastCid in g.db.token
    requires Taken(g.db, g.db.token[DevAt(g, r.src).lastCid].addr, DevAt(g, r.src).lastCid)
    requires !Taken(g.db, g.maxBound, DevAt(g, r.src).lastCid)
    ensures var db, c := CbGetPollResult(g, r, CMD_REGS).0.db, DevAt(g, r.src).lastCid;
            && db.token == g.db.token[c := g.db.token[c].(addr := g.maxBound)]
            && db.mapping == g.db.mapping[g.maxBound := c]
  {
    var d, c := r.src, DevAt(g, r.src).lastCid;
    var t, g0 := g.db.token[c], Queue(g, [TurnOn(Second, d, r.buff[20] % 2)]);
    StoredSettled(g.db, c);
    AddCidForm(g0, d, t);
    var t1 := t.(addr := 0);
    AddToDevicesKeepsDb(g0.(db := AddToken(g0.db, WithAddr(g0, t1))), WithAddr(g0, t1), 1);
    RegsAsAdmitted(g, r);
  }

  /** One of an unknown card opens no door. The card is stored at the global bound, with no
      attributes and a full mask, unless another card owns that. */
  lemma UnknownCardStored(g: Gate, r: Reply)
    requires g.target == TARGET_GET_REGS && g.maxBound >= START_TICKET_BOUND
    requires ReadingDue(DevAt(g, r.src), r.buff[20]) && AtDoor(r.buff[20])
    requires DevAt(g, r.src).lastCid !in g.db.token
    ensures var g', cid := CbGetPollResult(g, r, CMD_REGS).0, DevAt(g, r.src).lastCid;
            && SameDoors(g, g')
            && (if Taken(g.db, g.maxBound, cid) then g'.db == g.db
                else g'.db.token == g.db.token[cid := Token(cid, 0, 0xFF, g.maxBound)]
                     && g'.db.mapping == g.db.mapping[g.maxBound := cid])
  {
    var t := Token(DevAt(g, r.src).lastCid, 0, 0xFF, 0);
    AddCidToAllSameDoors(g, t);
    AddToDevicesKeepsDb(g.(db := AddToken(g.db, WithAddr(g, t))), WithAddr(g, t), 1);
    SameQueuesSameDoors(AddCidToAll(g, t).0, CbGetPollResult(g, r, CMD_REGS).0);
  }

  /** In every case at most the known card's door is opened. */
  lemma RegsDoors(g: Gate, r: Reply)
    requires g.target == TARGET_GET_REGS
    ensures var g', dev, ev := CbGetPollResult(g, r, CMD_REGS).0, DevAt(g, r.src), r.buff[20];
            if ReadingDue(dev, ev) && AtDoor(ev) && dev.lastCid in g.db.token
            then exists door :: OpensDoor(door, r.src, if ev == 3 then 1 else 0) && OneDoor(g, g', door)
            else SameDoors(g, g')
  {
    var g', d, ev := CbGetPollResult(g, r, CMD_REGS).0, r.src, r.buff[20];
    if ReadingDue(DevAt(g, d), ev) && AtDoor(ev) {
      SameQueuesSameDoors(AdmitCard(g, d, ev), g');
      match TokenByCid(g.db, DevAt(g, d).lastCid) {
        case Some(t) =>
          var door := TurnOn(Second, d, ev % 2);
          OneOpening(g, d, t, door);
          var (g1, ok) := AddCid(Queue(g, [door]), d, t);
          AddCidToAllSameDoors(g1, t.(addr := 0));
          assert OneDoor(g, AdmitCard(g, d, ev), door);
          assert OneDoor(g, g', door);
          assert OpensDoor(door, d, if ev == 3 then 1 else 0);
        case None => AddCidToAllSameDoors(g, Token(DevAt(g, d).lastCid, 0, 0xFF, 0));
      }
    } else {
      SameQueuesSameDoors(g, g');
    }
  }

  // ----- every frame, every step -----

  /** A reply is a register reading to be acted on: a card the database knows is at a door. */
  predicate CallsForDoor(g: Gate, dev: Dev, obs: seq<Seen>) {
    && |obs| == 1 && obs[0].Regs? && AtDoor(obs[0].ev) && ReadingDue(dev, obs[0].ev)
    && dev.lastCid in g.db.token
  }

  /** A door of the device has been opened, once. */
  ghost predicate DoorOpened(g: Gate, g': Gate, d: DevId, ev: Byte) {
    exists door :: OpensDoor(door, d, if ev == 3 then 1 else 0) && OneDoor(g, g', door)
  }

  lemma DoorThen(g: Gate, g1: Gate, g2: Gate, g3: Gate, d: DevId, ev: Byte)
    requires SameDoors(g, g1) && DoorOpened(g1, g2, d, ev) && SameDoors(g2, g3)
    ensures DoorOpened(g, g3, d, ev)
  {
    var door :| OpensDoor(door, d, if ev == 3 then 1 else 0) && OneDoor(g1, g2, door);
    assert OneDoor(g, g3, door);
  }

  lemma ReadStartSameDoors(g: Gate)
    ensures SameDoors(g, ReadStart(g))
  {
    var dev := DevAt(g, g.dev);
    var g1 := SetDev(g, g.dev, dev.(active := true, timeouts := 0, inited := true)).(isExpected := false);
    SameQueuesSameDoors(g, g1);
    QueueSameDoors(g1, DevInit(g.dev, g.maxBound, g.date));
    SameDoorsTrans(g, g1, Queue(g1, DevInit(g.dev, g.maxBound, g.date)));
  }

  lemma LogSameDoors(g: Gate, r: Reply)
    ensures SameDoors(g, CbLogRead(g, r).0)
  {
    var up, down, dev, n := FromBe16(r.buff, 0), FromBe16(r.buff, 2), DevAt(g, r.src), RecordCount(r);
    if g.target == TARGET_GET_BUFF_ADDR {
      if down <= MAX_LOG_BOUND && up <= MAX_LOG_BOUND {
        var g1 := SetDev(g, r.src, dev.(boundDown := down, boundUp := up));
        SameQueuesSameDoors(g, g1);
        SendSameDoors(g1, GetBuffData(Short, r.src, down, BlockLen(up, down)));
      }
    } else if g.target == TARGET_GET_BUFF_DATA {
      var g1 := SetDev(g, r.src, AfterRecords(dev, g.db, Records(r.buff, n)));
      SameQueuesSameDoors(g, g1);
      SendSameDoors(g1, SetBuffAddrDown(Short, r.src, NextDown(Min(dev.boundDown, MAX_LOG_BOUND), n)));
    }
  }

  lemma CidSameDoors(g: Gate, r: Reply)
    requires g.target == TARGET_GET_CID
    ensures SameDoors(g, CbGetPollResult(g, r, CMD_GET).0)
  {
    var cid := Bin2Int(r.buff, if r.len < 0 then 8 else r.len, DevAt(g, r.src).revert);
    var g1 := SetDev(g, r.src, SeeCid(DevAt(g, r.src), cid));
    SameQueuesSameDoors(g, g1);
    SendSameDoors(g1, GetRegs(Short, r.src));
  }

  /** What a handler does to the doors. */
  lemma HandlerDoors(g: Gate, r: Reply)
    requires r.src == g.dev
    ensures var g' := ProcessPortInput(g, r, CmdOf(r)).0;
            if CallsForDoor(g, DevAt(g, r.src), Reading(g, r)) then DoorOpened(g, g', r.src, r.buff[20])
            else SameDoors(g, g')
  {
    match g.handler
    case LogHandler => LogSameDoors(g, r);
    case NoHandler => SameQueuesSameDoors(g, NoteReply(g, r, CmdOf(r)));
    case PollHandler =>
      if g.target == TARGET_GET_REGS && CmdOf(r) == CMD_REGS {
        RegsDoors(g, r);
      } else if g.target == TARGET_GET_CID && CmdOf(r) == CMD_GET {
        CidSameDoors(g, r);
      }
  }

  lemma FrameDoors(g: Gate, r: Reply)
    ensures if CallsForDoor(g, DevAt(g, r.src), Reading(g, r)) then DoorOpened(g, FrameIn(g, r), r.src, r.buff[20])
            else SameDoors(g, FrameIn(g, r))
  {
    var g1 := ReadStart(g);
    ReadStartSameDoors(g);
    ReadStartSameCards(g);
    assert SameCards(DevAt(g, r.src), DevAt(g1, r.src)) && Reading(g1, r) == Reading(g, r);
    if r.src == g.dev && (IsAck(r) || !IsReplyFrame(r)) {
      HandlerDoors(g1, r);
      HandledDoors(g, g1, r);
    } else {
      PutSameDoors(g1);
    }
  }

  lemma HandledDoors(g: Gate, g1: Gate, r: Reply)
    requires g1.dev == r.src && (IsAck(r) || !IsReplyFrame(r)) && SameDoors(g, g1)
    requires var g' := ProcessPortInput(g1, r, CmdOf(r)).0;
             if CallsForDoor(g1, DevAt(g1, r.src), Reading(g1, r)) then DoorOpened(g1, g', r.src, r.buff[20])
             else SameDoors(g1, g')
    ensures if CallsForDoor(g1, DevAt(g1, r.src), Reading(g1, r)) then DoorOpened(g, Dispatch(g1, r), r.src, r.buff[20])
            else SameDoors(g, Dispatch(g1, r))
  {
    var g' := ProcessPortInput(g1, r, CmdOf(r)).0;
    DispatchProcesses(g1, r);
    PutSameDoors(g');
    SameQueuesSameDoors(g', g');
    if CallsForDoor(g1, DevAt(g1, r.src), Reading(g1, r)) {
      DoorThen(g, g1, g', g', r.src, r.buff[20]);
      DoorThen(g, g1, g', PutCmd(g'), r.src, r.buff[20]);
    }
  }

  /** Steps other than deliveries open no door, save for openings the application queues. */
  lemma OtherSteps(s: Sys, st: Step)
    requires Enabled(s, st) && !st.Deliver? && (st.App? && st.call.CallCommand? ==> !Opens(st.call.z))
    ensures SameDoors(s.g, Apply(s, st).g)
  {
    match st
    case Reject => ReadStartSameDoors(s.g);
    case Part => ReadStartSameDoors(s.g);
    case Tick(due) => TimerSameDoors(s.g, due);
    case App(c) => CallSameDoors(s.g, c);
    case _ =>
  }

  lemma TimerSameDoors(g: Gate, due: bool)
    ensures SameDoors(g, Timer(g, due))
  {
    if due {
      var g1 := Expire(g);
      SameQueuesSameDoors(g, g1);
      if Empty(g1.q) {
        var (devices, pos, found) := IdleScan(g1.devices, g1.idlePos, g1.maxDevN, g1.maxTimeouts);
        var g2 := g1.(devices := devices, idlePos := pos);
        SameQueuesSameDoors(g1, g2);
        SendSameDoors(g2, PollCid(pos));
      } else {
        PutSameDoors(g1);
      }
    }
  }

  lemma CallSameDoors(g: Gate, c: Call)
    requires CallOk(g, c) && (c.CallCommand? ==> !Opens(c.z))
    ensures SameDoors(g, AppStep(g, c))
  {
    match c
    case CallAddCid(t) => AddCidToAllSameDoors(g, t);
    case CallAddOne(d, t) => AddCidSameDoors(g, d, t);
    case CallAddToken(cid, attr, mask) => AddTokenToAllSameDoors(g, cid, attr, mask);
    case CallReload(d, order) =>
      ReloadOnlyTokens(g.db, d, DevAt(g, d).revert, order);
      QueueSameDoors(g, ReloadCmds(g.db, d, DevAt(g, d).revert, order));
    case CallCommand(z) => QueueSameDoors(g, [z]);
    case CallLogScan => LogTickSameDoors(g, 1);
    case _ => SameQueuesSameDoors(g, AppStep(g, c));
  }

  lemma {:induction false} LogTickSameDoors(g: Gate, d: nat)
    requires d >= 1
    ensures SameDoors(g, LogTick(g, d))
    decreases 256 - d
  {
    if d <= g.maxDevN {
      var g1 := if DevAt(g, d).active then Queue(g, [GetBuffAddr(Second, d, LogHandler)]) else g;
      QueueSameDoors(g, [GetBuffAddr(Second, d, LogHandler)]);
      LogTickSameDoors(g1, d + 1);
      SameDoorsTrans(g, g1, LogTick(g1, d + 1));
    }
  }

  // ----- over runs -----

  /** The last reading of a device is due, over the readings alone: a card event, and another
      event than at the reading before or a new card since. The card is one the database knows. */
  ghost predicate DueAtDoor(obs: seq<Seen>, known: set<nat>) {
    && obs != []
    && var k := |obs| - 1;
       Due(0, 0, obs, k) && AtDoor(obs[k].ev) && CidBefore(0, obs, k) in known
  }

  /** Over every run: a delivery opens a door, exactly one, if and only if it brings a reading
      that is due at a door for a card the database knows; and the door is that reading's. So the
      doors opened for cards are the due actions of known new cards, and steady readings open
      none. */
  lemma DoorsFollowReadings(s: Sys, steps: seq<Step>, st: Step)
    requires Init(s) && Legal(s, steps) && Enabled(LineSystem.Run(s, steps), st) && st.Deliver?
    ensures var mid := LineSystem.Run(s, steps);
            var g', d := Apply(mid, st).g, mid.line[0].r.src;
            var now := StepReadings(mid, st, d);
            if now != [] && DueAtDoor(Readings(s, steps, d) + now, mid.g.db.token.Keys)
            then now[0].Regs? && DoorOpened(mid.g, g', d, now[0].ev)
            else SameDoors(mid.g, g')
  {
    var mid := LineSystem.Run(s, steps);
    var r := Cut(mid.line[0].r, st.missing);
    var d, obs := r.src, Readings(s, steps, r.src);
    var now := StepReadings(mid, st, d);
    FrameDoors(mid.g, r);
    RunEffect(s, steps, d);
    assert s.g.devices[d] == FreshDev(d);
    CallsWhenDue(mid.g, obs, now, mid.g.devices[d], d);
  }

  lemma CallsWhenDue(g: Gate, obs: seq<Seen>, now: seq<Seen>, dev: Dev, d: DevId)
    requires SamePoll(After(FreshDev(d), obs, |obs|), dev) && |now| <= 1
    ensures CallsForDoor(g, dev, now) <==> now != [] && DueAtDoor(obs + now, g.db.token.Keys)
  {
    if now != [] {
      DueMeans(obs, now, dev, d);
      NextCalls(g, obs, now, dev);
    }
  }

  lemma NextCalls(g: Gate, obs: seq<Seen>, now: seq<Seen>, dev: Dev)
    requires |now| == 1 && SaysDue(obs, now, dev)
    ensures CallsForDoor(g, dev, now) <==> DueAtDoor(obs + now, g.db.token.Keys)
  {
    LastReading(obs, now, g.db.token.Keys);
  }

  lemma LastReading(obs: seq<Seen>, now: seq<Seen>, known: set<nat>)
    requires |now| == 1
    ensures DueAtDoor(obs + now, known) <==>
              Due(0, 0, obs + now, |obs|) && AtDoor(now[0].ev) && CidBefore(0, obs + now, |obs|) in known
  {
    var all := obs + now;
    assert all != [] && |all| - 1 == |obs| && all[|obs|] == now[0];
  }

  /** What a device's entry says after some readings is what the readings say. */
  ghost predicate SaysDue(obs: seq<Seen>, now: seq<Seen>, dev: Dev)
    requires |now| == 1
  {
    && (now[0].Regs? ==> (Due(0, 0, obs + now, |obs|) <==>
                            (IsNewCard(now[0].ev) || IsKnownCard(now[0].ev)) && ReadingDue(dev, now[0].ev)))
    && (!now[0].Regs? ==> !Due(0, 0, obs + now, |obs|))
    && CidBefore(0, obs + now, |obs|) == dev.lastCid
  }

  lemma DueMeans(obs: seq<Seen>, now: seq<Seen>, dev: Dev, d: DevId)
    requires SamePoll(After(FreshDev(d), obs, |obs|), dev) && |now| == 1
    ensures SaysDue(obs, now, dev)
  {
    AfterFront(FreshDev(d), obs, now, |obs|);
    ActionsExactlyWhenDue(FreshDev(d), obs + now, |obs|);
  }
}
