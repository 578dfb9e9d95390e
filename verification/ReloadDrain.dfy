/** A device's token memory after a reload, once everything that waits has been carried out:
    the first-class commands of the reload, and then the second-class records that were
    waiting behind them. */
module ReloadDrain {
  import opened LibGate
  import opened GateState
  import opened GpQueue
  import opened DbLayer
  import opened AdTarget
  import opened AdCmd
  import opened CardBytes
  import opened GpProcessor
  import opened CardRuns
  import opened TokenSafety
  import opened Allocator
  import opened Reload

  function BankOf(m: TokenMemory, bank: Byte): Bank {
    if bank == 0 then m.bank0 else m.bank1
  }

  function SlotOf(m: TokenMemory, bank: Byte, addr: nat): Rec
    requires addr + TICKET_SIZE <= U16
  {
    BankOf(m, bank)[addr..addr + TICKET_SIZE]
  }

  /** A token record for a slot of a device. */
  predicate IsRecord(z: Cmd, d: DevId, bank: Byte, addr: nat) {
    z.target == TARGET_SET_TOKEN && z.dst == d && |z.data| == 13 && z.data[0] == bank && Begin(z.data) == addr
  }

  function RecordIn(z: Cmd): Rec
    requires |z.data| == 13
  {
    z.data[5..13]
  }

  /** The last of them in a list of commands. */
  function LastRecord(zs: seq<Cmd>, d: DevId, bank: Byte, addr: nat): Option<Rec> {
    if zs == [] then None
    else
      var z := zs[|zs| - 1];
      if IsRecord(z, d, bank, addr) then Some(RecordIn(z)) else LastRecord(zs[..|zs| - 1], d, bank, addr)
  }

  /** A slot that a device has, of an aligned database. */
  ghost predicate SlotsAligned(db: Db) {
    forall a :: a in db.mapping ==> Aligned(a)
  }

  predicate IsSlot(addr: nat, bank: Byte) {
    Aligned(addr) && addr >= START_TICKET_BOUND && bank <= 1
  }

  // ----- carrying commands out -----

  lemma {:induction false} CarryConcat(m: TokenMemory, d: DevId, a: seq<Cmd>, b: seq<Cmd>)
    ensures CarryAll(m, d, a + b) == CarryAll(CarryAll(m, d, a), d, b)
    decreases |b|
  {
    if b == [] {
      assert a + b == a;
    } else {
      var front := b[..|b| - 1];
      assert a + b == a + front + [b[|b| - 1]];
      CarryConcat(m, d, a, front);
      CarrySnoc(m, d, a + front, b[|b| - 1]);
    }
  }

  lemma RecordWrites(db: Db, known: Known, z: Cmd)
    requires RecordOk(db, known, z) && SlotsAligned(db)
    ensures Begin(z.data) + TICKET_SIZE <= U16 && Aligned(Begin(z.data))
    ensures WritesTokens(z.cmdN, z.data, z.data[0]) && z.data[5..5 + z.data[2]] == z.data[5..13]
  {
    AlignedEnds(Begin(z.data));
  }

  /** A token record changes its own slot only. */
  lemma CarryRecord(m: TokenMemory, d: DevId, z: Cmd, db: Db, known: Known, bank: Byte, addr: nat)
    requires RecordOk(db, known, z) && z.target == TARGET_SET_TOKEN && SlotsAligned(db) && IsSlot(addr, bank)
    ensures addr + TICKET_SIZE <= U16
    ensures SlotOf(Carry(m, d, z), bank, addr)
            == if IsRecord(z, d, bank, addr) then z.data[5..13] else SlotOf(m, bank, addr)
  {
    AlignedEnds(addr);
    RecordWrites(db, known, z);
    if z.dst == d && z.data[0] == bank {
      if Begin(z.data) == addr {
        WriteHolds(BankOf(m, bank), addr, z.data[5..13]);
      } else {
        AlignedApart(Begin(z.data), addr);
        WriteKeeps(BankOf(m, bank), Begin(z.data), z.data[5..13], addr, SlotOf(m, bank, addr));
      }
    }
  }

  /** A command that spares the slots changes none. */
  lemma CarryOther(m: TokenMemory, d: DevId, z: Cmd, bank: Byte, addr: nat)
    requires SparesSlots(z) && IsSlot(addr, bank)
    ensures addr + TICKET_SIZE <= U16
    ensures SlotOf(Carry(m, d, z), bank, addr) == SlotOf(m, bank, addr)
  {
    AlignedEnds(addr);
  }

  /** After any commands that are in order, a slot holds the last record for it, or what it
      held before. */
  lemma {:induction false} CarriedSlot(m: TokenMemory, d: DevId, zs: seq<Cmd>, db: Db, known: Known,
                                       bank: Byte, addr: nat)
    requires AllOk(db, known, zs) && known.spared && SlotsAligned(db) && IsSlot(addr, bank)
    ensures addr + TICKET_SIZE <= U16
    ensures SlotOf(CarryAll(m, d, zs), bank, addr) == match LastRecord(zs, d, bank, addr)
                                                      case Some(r) => r
                                                      case None => SlotOf(m, bank, addr)
  {
    AlignedEnds(addr);
    if zs != [] {
      var front, z := zs[..|zs| - 1], zs[|zs| - 1];
      assert TokenOk(db, known, z);
      CarriedSlot(m, d, front, db, known, bank, addr);
      if z.target == TARGET_SET_TOKEN {
        CarryRecord(CarryAll(m, d, front), d, z, db, known, bank, addr);
      } else {
        CarryOther(CarryAll(m, d, front), d, z, bank, addr);
      }
    }
  }

  // ----- a reload, drained -----

  /** Nothing is known of byte orders; commands other than token records spare the slots. */
  const SLOTS_SPARED: Known := Known(map[], true, 0)

  /** A database of aligned slots without a record of card 0, waiting second-class records that
      each carry their address's card in some byte order, and a walk through all cards. */
  ghost predicate Reloadable(g: Gate, order: seq<nat>) {
    && DbSound(g.db) && AllOk(g.db, SLOTS_SPARED, g.q.second)
    && SlotsAligned(g.db) && 0 !in g.db.token && forall c :: c in order <==> c in g.db.token
  }

  /** The device once it has carried out all that waits, in the order it is sent. */
  function Drained(g: Gate, d: DevId, order: seq<nat>, m: TokenMemory): TokenMemory
    requires forall c :: c in order ==> c in g.db.token
  {
    CarryAll(m, d, Drain(AdCmd.Reload(g, d, order).q))
  }

  lemma StoredSlot(g: Gate, c: nat, bank: Byte)
    requires DbSound(g.db) && SlotsAligned(g.db) && c in g.db.token && bank <= 1
    ensures IsSlot(g.db.token[c].addr, bank) && g.db.token[c].addr + TICKET_SIZE <= U16
  {
    AlignedEnds(g.db.token[c].addr);
  }

  lemma SoundIsSpaced(db: Db)
    requires DbSound(db) && SlotsAligned(db) && 0 !in db.token
    ensures Spaced(db)
  {
    AlignedIsSpaced(db);
  }

  /** After a reload and a full drain, a card's slot holds the last second-class record that
      was waiting for it, if there was one, and the database's record otherwise. */
  lemma DrainedSlot(g: Gate, d: DevId, order: seq<nat>, m: TokenMemory, c: nat, bank: Byte)
    requires Reloadable(g, order) && c in g.db.token && bank <= 1
    ensures var t := g.db.token[c];
            && t.addr + TICKET_SIZE <= U16
            && SlotOf(Drained(g, d, order, m), bank, t.addr) == match LastRecord(g.q.second, d, bank, t.addr)
                                                                case Some(r) => r
                                                                case None => TokenRecord(t, DevAt(g, d).revert)
  {
    var t, q := g.db.token[c], AdCmd.Reload(g, d, order).q;
    StoredSlot(g, c, bank);
    DrainedInTwo(g, d, order, m);
    SoundIsSpaced(g.db);
    FirstSlot(g, d, order, m, c, bank);
    CarriedSlot(CarryAll(m, d, q.first), d, g.q.second, g.db, SLOTS_SPARED, bank, t.addr);
  }

  lemma DrainedInTwo(g: Gate, d: DevId, order: seq<nat>, m: TokenMemory)
    requires forall c :: c in order ==> c in g.db.token
    ensures Drained(g, d, order, m) == CarryAll(CarryAll(m, d, AdCmd.Reload(g, d, order).q.first), d, g.q.second)
  {
    var q := AdCmd.Reload(g, d, order).q;
    ReloadQueued(g, d, order);
    DrainOrder(q);
    CarryConcat(m, d, q.first, q.second);
  }

  lemma FirstSlot(g: Gate, d: DevId, order: seq<nat>, m: TokenMemory, c: nat, bank: Byte)
    requires Spaced(g.db) && c in g.db.token && bank <= 1 && forall c :: c in order <==> c in g.db.token
    ensures var t := g.db.token[c];
            && t.addr + TICKET_SIZE <= U16
            && SlotOf(CarryAll(m, d, AdCmd.Reload(g, d, order).q.first), bank, t.addr)
               == TokenRecord(t, DevAt(g, d).revert)
  {
    FirstClassRestores(g, d, order, m);
    assert c in order;
    HeldSlot(CarryAll(m, d, AdCmd.Reload(g, d, order).q.first), g.db.token[c], DevAt(g, d).revert, bank);
  }

  lemma HeldSlot(m: TokenMemory, t: Token, revert: bool, bank: Byte)
    requires BothHold(m, t, revert)
    ensures t.addr + TICKET_SIZE <= U16 && SlotOf(m, bank, t.addr) == TokenRecord(t, revert)
  {
  }

  /** The six bytes of a slot are card `c`, in byte order `revert`. */
  predicate HoldsCard(slot: Rec, c: nat, revert: bool) {
    slot[..6] == Int2BinBytes(c, 6, revert) && Bin2Int(slot, 6, revert) == c % Pow256(6)
  }

  lemma {:induction false} LastRecordIsOk(db: Db, known: Known, zs: seq<Cmd>, d: DevId, bank: Byte, addr: nat)
    requires AllOk(db, known, zs) && d in known.orders && 0 !in db.token
    ensures match LastRecord(zs, d, bank, addr)
            case Some(r) => addr in db.mapping && r[..6] == Int2BinBytes(db.mapping[addr], 6, known.orders[d])
            case None => true
  {
    if zs != [] {
      var z := zs[|zs| - 1];
      assert TokenOk(db, known, z);
      if IsRecord(z, d, bank, addr) {
        assert z.data[5..13][..6] == z.data[5..11];
      } else {
        LastRecordIsOk(db, known, zs[..|zs| - 1], d, bank, addr);
      }
    }
  }

  /** No record waits for a card's slot, or the last one carries the card in byte order
      `revert`. */
  predicate LastIsRight(zs: seq<Cmd>, d: DevId, bank: Byte, addr: nat, c: nat, revert: bool) {
    match LastRecord(zs, d, bank, addr)
    case Some(r) => r[..6] == Int2BinBytes(c, 6, revert)
    case None => true
  }

  /** Whatever the device held: after a reload and a full drain a bank holds a card of the
      database at its own address, readable in the device's byte order, if and only if the last
      second-class record that was waiting for that slot, if any, is in that order. */
  lemma ReloadRestores(g: Gate, d: DevId, order: seq<nat>, m: TokenMemory, c: nat, bank: Byte)
    requires Reloadable(g, order) && c in g.db.token && bank <= 1
    ensures var addr, revert := g.db.token[c].addr, DevAt(g, d).revert;
            && addr + TICKET_SIZE <= U16
            && (HoldsCard(SlotOf(Drained(g, d, order, m), bank, addr), c, revert)
                <==> LastIsRight(g.q.second, d, bank, addr, c, revert))
  {
    var t, revert := g.db.token[c], DevAt(g, d).revert;
    DrainedSlot(g, d, order, m, c, bank);
    assert TokenRecord(t, revert)[..6] == Int2BinBytes(t.cid, 6, revert);
    var slot := SlotOf(Drained(g, d, order, m), bank, t.addr);
    if slot[..6] == Int2BinBytes(c, 6, revert) {
      CardReadsBack(slot, c, revert);
    }
  }

  /** That is so for every card if the device's byte order has not turned under the records
      that wait, and in particular if none wait. */
  lemma SteadyOrderRestores(g: Gate, known: Known, d: DevId, order: seq<nat>, m: TokenMemory, c: nat, bank: Byte)
    requires Reloadable(g, order) && c in g.db.token && bank <= 1
    requires AllOk(g.db, known, g.q.second) && d in known.orders && known.orders[d] == DevAt(g, d).revert
    ensures var addr := g.db.token[c].addr;
            && addr + TICKET_SIZE <= U16
            && HoldsCard(SlotOf(Drained(g, d, order, m), bank, addr), c, DevAt(g, d).revert)
  {
    ReloadRestores(g, d, order, m, c, bank);
    LastRecordIsOk(g.db, known, g.q.second, d, bank, g.db.token[c].addr);
  }

  lemma CardReadsBack(slot: Rec, c: nat, revert: bool)
    requires slot[..6] == Int2BinBytes(c, 6, revert)
    ensures HoldsCard(slot, c, revert)
  {
    Bin2IntUndoesInt2Bin(c, 6, revert);
    assert slot[..6][..6] == slot[..6];
  }

  // ----- adding a card again, and then reloading -----

  predicate HasAttributes(slot: Rec, attr: Byte, mask: Byte) {
    slot[6] == attr && slot[7] == mask
  }

  /** The loop over devices writes to device `d`. */
  predicate Reached(g: Gate, k: nat, d: DevId) {
    k <= d <= g.maxDevN && DevAt(g, d).active
  }

  lemma {:induction false} LastRecordConcat(a: seq<Cmd>, b: seq<Cmd>, d: DevId, bank: Byte, addr: nat)
    ensures LastRecord(a + b, d, bank, addr)
            == if LastRecord(b, d, bank, addr).Some? then LastRecord(b, d, bank, addr) else LastRecord(a, d, bank, addr)
    decreases |b|
  {
    if b == [] {
      assert a + b == a;
    } else {
      assert (a + b)[..|a + b| - 1] == a + b[..|b| - 1];
      LastRecordConcat(a, b[..|b| - 1], d, bank, addr);
    }
  }

  /** The last record of the pair for a token. */
  lemma LastOfPair(k: DevId, addr: Word, record: Rec, d: DevId, bank: Byte)
    requires bank <= 1
    ensures LastRecord(SetToken(Second, k, addr, record), d, bank, addr) == if k == d then Some(record) else None
  {
    var zs := SetToken(Second, k, addr, record);
    var data := [0x00, 0xA0, 8] + ToBe16(addr) + record;
    Be16RoundTrip([0x00, 0xA0, 8], addr, record);
    assert data[5..13] == record && data[0 := 1][5..13] == record && Begin(data[0 := 1]) == addr;
    assert zs == [zs[0]] + [zs[1]];
    LastRecordConcat([zs[0]], [zs[1]], d, bank, addr);
    LastOfOne(zs[0], d, bank, addr);
    LastOfOne(zs[1], d, bank, addr);
  }

  lemma LastOfOne(z: Cmd, d: DevId, bank: Byte, addr: nat)
    ensures LastRecord([z], d, bank, addr) == if IsRecord(z, d, bank, addr) then Some(RecordIn(z)) else None
  {
    assert [z][..0] == [];
  }

  lemma {:induction false} NoneWithout(zs: seq<Cmd>, d: DevId, bank: Byte, addr: nat)
    requires forall z :: z in zs ==> z.target != TARGET_SET_TOKEN
    ensures LastRecord(zs, d, bank, addr) == None
  {
    if zs != [] {
      NoneWithout(zs[..|zs| - 1], d, bank, addr);
    }
  }

  /** One write to a device puts its record last for its slot, and no other. */
  lemma AddCidRecord(g: Gate, k: DevId, t: Token, d: DevId, bank: Byte)
    requires START_TICKET_BOUND <= t.addr < U16 && !Taken(g.db, t.addr, t.cid) && bank <= 1
    ensures LastRecord(AddCid(g, k, t).0.q.second, d, bank, t.addr)
            == if k == d then Some(TokenRecord(t, DevAt(g, k).revert)) else LastRecord(g.q.second, d, bank, t.addr)
  {
    var zs := SetToken(Second, k, t.addr, TokenRecord(t, DevAt(g, k).revert));
    var bound := SetTokenBound(Second, k, (t.addr + TICKET_SIZE) % U16);
    AddCidForm(g, k, t);
    InCmdsSecond(g.q, zs);
    InCmdsSecond(InCmds(g.q, zs), bound);
    LastRecordConcat(g.q.second, zs, d, bank, t.addr);
    LastRecordConcat(g.q.second + zs, bound, d, bank, t.addr);
    LastOfPair(k, t.addr, TokenRecord(t, DevAt(g, k).revert), d, bank);
    NoneWithout(bound, d, bank, t.addr);
  }

  lemma {:induction false} LoopRecord(g: Gate, t: Token, k: nat, d: DevId, bank: Byte)
    requires START_TICKET_BOUND <= t.addr < U16 && !Taken(g.db, t.addr, t.cid) && bank <= 1 && k >= 1
    ensures LastRecord(AddToDevices(g, t, k).0.q.second, d, bank, t.addr)
            == if Reached(g, k, d) then Some(TokenRecord(t, DevAt(g, d).revert))
               else LastRecord(g.q.second, d, bank, t.addr)
    decreases 256 - k
  {
    if k <= g.maxDevN {
      if !DevAt(g, k).active {
        LoopRecord(g, t, k + 1, d, bank);
      } else {
        var g1 := AddCid(g, k, t).0;
        AddCidWrites(g, k, t);
        AddCidCalmFor(g, k, t, d);
        AddCidRecord(g, k, t, d, bank);
        LoopRecord(g1, t, k + 1, d, bank);
      }
    }
  }

  lemma AddCidCalmFor(g: Gate, k: DevId, t: Token, d: DevId)
    ensures var g1 := AddCid(g, k, t).0;
            && DevAt(g1, d).revert == DevAt(g, d).revert && DevAt(g1, d).active == DevAt(g, d).active
            && g1.maxDevN == g.maxDevN && g1.db == g.db
  {
  }

  /** The attributes a device holds after `cmd_add_tocken_to_all`, a reload and a full drain are
      the ones given, if and only if the call has just written them to it; or the last record
      that was waiting for it had them; or, with none waiting, the card was new to the database
      or had them already. */
  lemma ReloadedAttributes(g: Gate, cid: nat, attr: Byte, mask: Byte,
                           d: DevId, order: seq<nat>, m: TokenMemory, bank: Byte)
    requires Behind(g) && DbSound(g.db) && bank <= 1
    requires Reloadable(AddTokenToAll(g, cid, attr, mask).0, order)
    ensures var g' := AddTokenToAll(g, cid, attr, mask).0;
            && cid in g'.db.token && g'.db.token[cid].addr + TICKET_SIZE <= U16
            && var addr := g'.db.token[cid].addr;
               HasAttributes(SlotOf(Drained(g', d, order, m), bank, addr), attr, mask) <==>
                 || Reached(g, 1, d)
                 || match LastRecord(g.q.second, d, bank, addr)
                    case Some(r) => HasAttributes(r, attr, mask)
                    case None => cid !in g.db.token || (g.db.token[cid].attr == attr && g.db.token[cid].mask == mask)
  {
    var g' := AddTokenToAll(g, cid, attr, mask).0;
    KnownCardKeepsOldAttributes(g, cid, attr, mask);
    var t := g'.db.token[cid];
    DrainedSlot(g', d, order, m, cid, bank);
    AddTokenRecord(g, cid, attr, mask, d, bank);
    RecordAttributes(t, DevAt(g', d).revert);
    RecordAttributes(t.(attr := attr, mask := mask), DevAt(g, d).revert);
  }

  lemma RecordAttributes(t: Token, revert: bool)
    ensures forall attr, mask :: HasAttributes(TokenRecord(t, revert), attr, mask) <==> t.attr == attr && t.mask == mask
  {
  }

  /** What `cmd_add_tocken_to_all` leaves waiting for the slot of its card. */
  lemma AddTokenRecord(g: Gate, cid: nat, attr: Byte, mask: Byte, d: DevId, bank: Byte)
    requires Behind(g) && DbSound(g.db) && bank <= 1
    requires 0 !in AddTokenToAll(g, cid, attr, mask).0.db.token
    ensures var g' := AddTokenToAll(g, cid, attr, mask).0;
            && cid in g'.db.token
            && var t := g'.db.token[cid];
               LastRecord(g'.q.second, d, bank, t.addr)
               == if Reached(g, 1, d) then Some(TokenRecord(t.(attr := attr, mask := mask), DevAt(g, d).revert))
                  else LastRecord(g.q.second, d, bank, t.addr)
  {
    KnownCardKeepsOldAttributes(g, cid, attr, mask);
    match TokenByCid(g.db, cid)
    case None =>
      var t := Token(cid, attr, mask, g.maxBound);
      AddToDevicesKeepsDb(g.(db := AddToken(g.db, t)), t, 1);
      LoopRecord(g.(db := AddToken(g.db, t)), t, 1, d, bank);
    case Some(t) =>
      StoredSettled(g.db, cid);
      AddToDevicesKeepsDb(g, t.(attr := attr, mask := mask), 1);
      LoopRecord(g, t.(attr := attr, mask := mask), 1, d, bank);
  }

  // ----- a byte order that turns under a waiting record -----

  lemma OrdersDiffer(c: nat, revert: bool)
    ensures Int2BinBytes(c, 6, !revert) == Int2BinBytes(c, 6, revert) <==> Palindrome(Bytes(c, 6))
  {
    Int2BinMeaning(c, 6, true);
    Int2BinMeaning(c, 6, false);
  }

  /** The state after a card has been written to a device and then an information reply turned
      the device's byte order. */
  function Turned(g: Gate, d: DevId, t: Token, r: Reply): Gate {
    ProcessPortInput(AddCid(g, d, t).0, r, CmdOf(r)).0
  }

  lemma TurnedState(g: Gate, d: DevId, t: Token, r: Reply, bank: Byte)
    requires TokenInv(g, SLOTS_SPARED) && Settled(g.db, t) && !Taken(g.db, t.addr, t.cid) && bank <= 1
    requires g.handler == NoHandler && r.src == g.dev == d && CmdOf(r) == CMD_INFO
    ensures var g' := Turned(g, d, t, r);
            && TokenInv(g', SLOTS_SPARED) && g'.db == g.db
            && DevAt(g', d).revert == (InterfaceType(r.buff) > 0)
            && LastRecord(g'.q.second, d, bank, t.addr) == Some(TokenRecord(t, DevAt(g, d).revert))
  {
    var g1 := AddCid(g, d, t).0;
    AddCidInv(g, SLOTS_SPARED, d, t);
    AddCidCalm(g, d, t);
    AddCidForm(g, d, t);
    AddCidRecord(g, d, t, d, bank);
    NoteReplyInv(g1, SLOTS_SPARED, r);
    OrderTurned(g, g1, d, r);
  }

  /** A reload does not repair it: its own record is right, but the stranded one is carried out
      after it. The slot then holds the card if and only if its bytes are the same both ways. */
  lemma ReloadIsOverwritten(g: Gate, d: DevId, c: nat, r: Reply, order: seq<nat>, m: TokenMemory, bank: Byte)
    requires TokenInv(g, SLOTS_SPARED) && SlotsAligned(g.db) && 0 !in g.db.token && c in g.db.token && bank <= 1
    requires forall e :: e in order <==> e in g.db.token
    requires g.handler == NoHandler && r.src == g.dev == d && CmdOf(r) == CMD_INFO
    requires (InterfaceType(r.buff) > 0) != DevAt(g, d).revert
    ensures var g', addr := Turned(g, d, g.db.token[c], r), g.db.token[c].addr;
            && g'.db == g.db && Reloadable(g', order) && addr + TICKET_SIZE <= U16
            && (HoldsCard(SlotOf(Drained(g', d, order, m), bank, addr), c, DevAt(g', d).revert)
                <==> Palindrome(Bytes(c, 6)))
  {
    var t, revert := g.db.token[c], DevAt(g, d).revert;
    var g' := Turned(g, d, t, r);
    StoredSettled(g.db, c);
    TurnedState(g, d, t, r, bank);
    TurnedReloadable(g', order);
    ReloadRestores(g', d, order, m, c, bank);
    StrandedIsRight(g'.q.second, d, bank, t, revert);
  }

  lemma TurnedReloadable(g: Gate, order: seq<nat>)
    requires TokenInv(g, SLOTS_SPARED) && SlotsAligned(g.db) && 0 !in g.db.token
    requires forall c :: c in order <==> c in g.db.token
    ensures Reloadable(g, order)
  {
  }

  lemma StrandedIsRight(zs: seq<Cmd>, d: DevId, bank: Byte, t: Token, revert: bool)
    requires LastRecord(zs, d, bank, t.addr) == Some(TokenRecord(t, revert))
    ensures LastIsRight(zs, d, bank, t.addr, t.cid, !revert) <==> Palindrome(Bytes(t.cid, 6))
  {
    assert TokenRecord(t, revert)[..6] == Int2BinBytes(t.cid, 6, revert);
    OrdersDiffer(t.cid, revert);
  }

  /** Card 1 is lost that way. */
  lemma CardOneOverwritten(g: Gate, d: DevId, r: Reply, order: seq<nat>, m: TokenMemory, bank: Byte)
    requires TokenInv(g, SLOTS_SPARED) && SlotsAligned(g.db) && 0 !in g.db.token && bank <= 1
    requires 1 in g.db.token && forall e :: e in order <==> e in g.db.token
    requires g.handler == NoHandler && r.src == g.dev == d && CmdOf(r) == CMD_INFO
    requires (InterfaceType(r.buff) > 0) != DevAt(g, d).revert
    ensures var g', addr := Turned(g, d, g.db.token[1], r), g.db.token[1].addr;
            && g'.db == g.db && Reloadable(g', order) && addr + TICKET_SIZE <= U16
            && !HoldsCard(SlotOf(Drained(g', d, order, m), bank, addr), 1, DevAt(g', d).revert)
  {
    ReloadIsOverwritten(g, d, 1, r, order, m, bank);
    CardOneBytes();
  }
}
