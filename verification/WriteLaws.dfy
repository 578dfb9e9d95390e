/** What adding a card writes to a device (src/ad_cmd.c), read from the bytes of the commands as
    the device reads them. */
module WriteLaws {
  import opened LibGate
  import opened GateState
  import opened GpQueue
  import opened DbLayer
  import opened AdTarget
  import opened AdCmd
  import opened CardBytes
  import opened Memory
  import opened CardRuns
  import opened Allocator
  import opened Reload
  import opened ReloadDrain

  /** Second-class commands have been queued behind those waiting, and nothing else. */
  predicate Appends(g: Gate, g': Gate) {
    g'.q.first == g.q.first && g.q.second <= g'.q.second && g'.wire == g.wire
  }

  function Appended(g: Gate, g': Gate): seq<Cmd>
    requires Appends(g, g')
  {
    g'.q.second[|g.q.second|..]
  }

  lemma AppendedIs(g: Gate, g': Gate, zs: seq<Cmd>)
    requires g'.q == g.q.(second := g.q.second + zs) && g'.wire == g.wire
    ensures Appends(g, g') && Appended(g, g') == zs
  {
  }

  lemma AppendsTrans(a: Gate, b: Gate, c: Gate)
    requires Appends(a, b) && Appends(b, c)
    ensures Appends(a, c) && Appended(a, c) == Appended(a, b) + Appended(b, c)
  {
  }

  // ----- what the device reads -----

  const BOUND_AT: nat := 0x00BE

  /** The token bound in a bank: two bytes, big end first. */
  function BoundIn(m: TokenMemory, bank: Byte): Word {
    FromBe16(BankOf(m, bank), BOUND_AT)
  }

  /** The address a write chooses: the one given, cut to 16 bits, or the device's bound when that
      is below the first slot. */
  predicate Chooses(g: Gate, d: DevId, t: Token, addr: nat) {
    addr == if t.addr % 0x1_0000 < 0x00C0 then g.devices[d].boundToken else t.addr % 0x1_0000
  }

  /** The bytes of a token record: card id in the device's order, attributes, schedule mask. */
  predicate RecordSays(r: Rec, t: Token, revert: bool) {
    r[..6] == Int2BinBytes(t.cid, 6, revert) && r[6] == t.attr && r[7] == t.mask
  }

  lemma SetTokenCarried(m: TokenMemory, d: DevId, addr: Word, record: Rec)
    ensures addr + TICKET_SIZE <= U16 ==>
              CarryAll(m, d, SetToken(Second, d, addr, record))
              == TokenMemory(Write(m.bank0, addr, record), Write(m.bank1, addr, record))
    ensures addr + TICKET_SIZE > U16 ==> CarryAll(m, d, SetToken(Second, d, addr, record)) == m
  {
    var zs := SetToken(Second, d, addr, record);
    var data := [0x00, 0xA0, 8] + ToBe16(addr) + record;
    Be16RoundTrip([0x00, 0xA0, 8], addr, record);
    assert data[5..13] == record;
    var data1 := data[0 := 1];
    assert data1[5..13] == record && Begin(data1) == addr;
    TwoCarried(m, d, zs);
  }

  lemma TwoCarried(m: TokenMemory, d: DevId, zs: seq<Cmd>)
    requires |zs| == 2
    ensures CarryAll(m, d, zs) == Carry(Carry(m, d, zs[0]), d, zs[1])
  {
    SnocPair(m, d, [], zs);
    assert [] + zs == zs;
  }

  lemma SetBoundCarried(m: TokenMemory, d: DevId, bound: Word)
    ensures CarryAll(m, d, SetTokenBound(Second, d, bound))
            == TokenMemory(Write(m.bank0, BOUND_AT, ToBe16(bound)), Write(m.bank1, BOUND_AT, ToBe16(bound)))
  {
    var zs := SetTokenBound(Second, d, bound);
    var data := [0x00, 0xA0, 2, 0x00, 0xBE] + ToBe16(bound);
    assert data[5..7] == ToBe16(bound) && Begin(data) == BOUND_AT && data[2] == 2;
    var data1 := data[0 := 1];
    assert data1[5..7] == ToBe16(bound) && Begin(data1) == BOUND_AT && data1[2] == 2;
    TwoCarried(m, d, zs);
  }

  lemma BoundReads(b: Bank, bound: Word)
    ensures FromBe16(Write(b, BOUND_AT, ToBe16(bound)), BOUND_AT) == bound
  {
    Be16RoundTrip(b[..BOUND_AT], bound, b[BOUND_AT + 2..]);
  }

  lemma BoundSpared(b: Bank, addr: nat, record: Rec)
    requires START_TICKET_BOUND <= addr && addr + TICKET_SIZE <= U16
    ensures FromBe16(Write(b, addr, record), BOUND_AT) == FromBe16(b, BOUND_AT)
  {
  }

  lemma SlotSpared(b: Bank, bound: Word, addr: nat)
    requires START_TICKET_BOUND <= addr && addr + TICKET_SIZE <= U16
    ensures Write(b, BOUND_AT, ToBe16(bound))[addr..addr + TICKET_SIZE] == b[addr..addr + TICKET_SIZE]
  {
  }

  // ----- one write -----

  lemma AddCidAppends(g: Gate, d: DevId, t: Token, addr: Word)
    requires Chooses(g, d, t, addr) && !Taken(g.db, addr, t.cid)
    ensures var g' := AddCid(g, d, t).0;
            && AddCid(g, d, t).1 && g'.db == g.db && Appends(g, g')
            && Appended(g, g') == SetToken(Second, d, addr, TokenRecord(t, DevAt(g, d).revert))
                 + (if addr < DevAt(g, d).boundToken then [] else SetTokenBound(Second, d, (addr + TICKET_SIZE) % U16))
            && g'.devices == (if addr < DevAt(g, d).boundToken then g.devices
                              else g.devices[d := DevAt(g, d).(boundToken := (addr + TICKET_SIZE) % U16)])
  {
    var zs := SetToken(Second, d, addr, TokenRecord(t, DevAt(g, d).revert));
    var bound := SetTokenBound(Second, d, (addr + TICKET_SIZE) % U16);
    assert TokenAddr(g, d, t) == addr;
    InCmdsSecond(g.q, zs);
    if addr >= DevAt(g, d).boundToken {
      InCmdsSecond(InCmds(g.q, zs), bound);
      assert g.q.second + zs + bound == g.q.second + (zs + bound);
    } else {
      assert zs + [] == zs;
    }
  }

  /** What a write to a device does to its banks, once carried out: the record stands in its slot
      in both. If the slot is at or past the host's bound for the device, the host's bound moves
      behind the slot, and both banks hold the new one; otherwise neither changes. */
  ghost predicate WriteMeans(g: Gate, g': Gate, d: DevId, t: Token, addr: nat,
                             m: TokenMemory, m': TokenMemory, bank: Byte) {
    && (addr + TICKET_SIZE <= U16 && addr >= START_TICKET_BOUND ==>
          RecordSays(SlotOf(m', bank, addr), t, g.devices[d].revert))
    && (if addr >= g.devices[d].boundToken then
          && g'.devices[d].boundToken == (addr + 8) % 0x1_0000
          && BoundIn(m', bank) == g'.devices[d].boundToken
          && (addr + 8 < 0x1_0000 ==> addr + 8 <= g'.devices[d].boundToken)
        else
          && g'.devices[d].boundToken == g.devices[d].boundToken && BoundIn(m', bank) == BoundIn(m, bank))
  }

  lemma AddCidReachesDevice(g: Gate, d: DevId, t: Token, addr: Word, m: TokenMemory, bank: Byte)
    requires Chooses(g, d, t, addr) && !Taken(g.db, addr, t.cid) && bank <= 1
    ensures var g' := AddCid(g, d, t).0;
            && AddCid(g, d, t).1 && g'.db == g.db && Appends(g, g')
            && WriteMeans(g, g', d, t, addr, m, CarryAll(m, d, Appended(g, g')), bank)
  {
    var record := TokenRecord(t, DevAt(g, d).revert);
    AddCidAppends(g, d, t, addr);
    RecordIsSaid(t, DevAt(g, d).revert);
    var g' := AddCid(g, d, t).0;
    if addr >= DevAt(g, d).boundToken {
      RecordThenBound(m, d, addr, record, (addr + TICKET_SIZE) % U16, bank);
      MeansRaised(g, g', d, t, addr, m, CarryAll(m, d, Appended(g, g')), bank, record);
    } else {
      RecordOnly(m, d, addr, record, bank);
      MeansKept(g, g', d, t, addr, m, CarryAll(m, d, Appended(g, g')), bank, record);
    }
  }

  lemma MeansRaised(g: Gate, g': Gate, d: DevId, t: Token, addr: Word, m: TokenMemory, m': TokenMemory,
                    bank: Byte, record: Rec)
    requires SlotHolds(m', bank, addr, record) && RecordSays(record, t, g.devices[d].revert)
    requires addr >= g.devices[d].boundToken && g'.devices[d].boundToken == (addr + TICKET_SIZE) % U16
    requires BoundIn(m', bank) == (addr + TICKET_SIZE) % U16
    ensures WriteMeans(g, g', d, t, addr, m, m', bank)
  {
  }

  lemma MeansKept(g: Gate, g': Gate, d: DevId, t: Token, addr: Word, m: TokenMemory, m': TokenMemory,
                  bank: Byte, record: Rec)
    requires SlotHolds(m', bank, addr, record) && RecordSays(record, t, g.devices[d].revert)
    requires addr < g.devices[d].boundToken == g'.devices[d].boundToken && BoundIn(m', bank) == BoundIn(m, bank)
    ensures WriteMeans(g, g', d, t, addr, m, m', bank)
  {
  }

  lemma RecordIsSaid(t: Token, revert: bool)
    ensures RecordSays(TokenRecord(t, revert), t, revert)
  {
  }

  /** The slot holds a record, if it is one. */
  predicate SlotHolds(m: TokenMemory, bank: Byte, addr: nat, record: Rec) {
    addr + TICKET_SIZE <= U16 && addr >= START_TICKET_BOUND ==> SlotOf(m, bank, addr) == record
  }

  lemma RecordOnly(m: TokenMemory, d: DevId, addr: Word, record: Rec, bank: Byte)
    requires addr >= START_TICKET_BOUND && bank <= 1
    ensures var m' := CarryAll(m, d, SetToken(Second, d, addr, record) + []);
            SlotHolds(m', bank, addr, record) && BoundIn(m', bank) == BoundIn(m, bank)
  {
    var zs := SetToken(Second, d, addr, record);
    assert zs + [] == zs;
    SetTokenCarried(m, d, addr, record);
    if addr + TICKET_SIZE <= U16 {
      BoundSpared(BankOf(m, bank), addr, record);
      WriteHolds(BankOf(m, bank), addr, record);
    }
  }

  lemma RecordThenBound(m: TokenMemory, d: DevId, addr: Word, record: Rec, bound: Word, bank: Byte)
    requires bank <= 1
    ensures var m' := CarryAll(m, d, SetToken(Second, d, addr, record) + SetTokenBound(Second, d, bound));
            SlotHolds(m', bank, addr, record) && BoundIn(m', bank) == bound
  {
    var zs := SetToken(Second, d, addr, record);
    var m1 := CarryAll(m, d, zs);
    CarryConcat(m, d, zs, SetTokenBound(Second, d, bound));
    SetTokenCarried(m, d, addr, record);
    SetBoundCarried(m1, d, bound);
    BoundReads(BankOf(m1, bank), bound);
    if addr + TICKET_SIZE <= U16 && addr >= START_TICKET_BOUND {
      SlotSpared(BankOf(m1, bank), bound, addr);
      WriteHolds(BankOf(m, bank), addr, record);
    }
  }

  /** A write queues commands for its own device alone, each noted under the bank it writes. */
  lemma AddCidOnlyTo(g: Gate, d: DevId, t: Token, addr: Word)
    requires Chooses(g, d, t, addr) && !Taken(g.db, addr, t.cid)
    ensures var g' := AddCid(g, d, t).0;
            && Appends(g, g')
            && forall z :: z in Appended(g, g') ==> z.dst == d && z.data != [] && z.data[0] == z.bank <= 1
  {
    AddCidAppends(g, d, t, addr);
  }

  // ----- writes to all devices -----

  lemma {:induction false} OthersCarryNothing(m: TokenMemory, d: DevId, zs: seq<Cmd>)
    requires forall z :: z in zs ==> z.dst != d
    ensures CarryAll(m, d, zs) == m
  {
    if zs != [] {
      OthersCarryNothing(m, d, zs[..|zs| - 1]);
    }
  }

  /** What the loop over devices from `k` on has done to device `d`. */
  ghost predicate LoopMeans(g: Gate, g': Gate, k: nat, d: DevId, t: Token, m: TokenMemory, bank: Byte) {
    && Appends(g, g') && g'.db == g.db
    && var m' := CarryAll(m, d, Appended(g, g'));
       if k <= d <= g.maxDevN && g.devices[d].active then WriteMeans(g, g', d, t, t.addr, m, m', bank)
       else m' == m && g'.devices[d] == g.devices[d]
  }

  lemma {:induction false} LoopReachesDevice(g: Gate, k: nat, d: DevId, t: Token, m: TokenMemory, bank: Byte)
    requires START_TICKET_BOUND <= t.addr < U16 && !Taken(g.db, t.addr, t.cid) && bank <= 1 && k >= 1
    ensures AddToDevices(g, t, k).1 && LoopMeans(g, AddToDevices(g, t, k).0, k, d, t, m, bank)
    decreases 256 - k
  {
    if k > g.maxDevN {
      AppendedIs(g, g, []);
    } else if !DevAt(g, k).active {
      LoopReachesDevice(g, k + 1, d, t, m, bank);
    } else {
      var g1 := AddCid(g, k, t).0;
      OneOfLoop(g, k, d, t, m, bank);
      var m1 := CarryAll(m, d, Appended(g, g1));
      LoopReachesDevice(g1, k + 1, d, t, m1, bank);
      var g' := AddToDevices(g1, t, k + 1).0;
      AppendsTrans(g, g1, g');
      CarryConcat(m, d, Appended(g, g1), Appended(g1, g'));
      LoopJoins(g, g1, g', k, d, t, m, bank);
    }
  }

  lemma OneOfLoop(g: Gate, k: DevId, d: DevId, t: Token, m: TokenMemory, bank: Byte)
    requires START_TICKET_BOUND <= t.addr < U16 && !Taken(g.db, t.addr, t.cid) && bank <= 1
    ensures var g1 := AddCid(g, k, t).0;
            && AddCid(g, k, t).1 && g1.db == g.db && g1.maxDevN == g.maxDevN && Appends(g, g1)
            && (forall e: DevId :: e != k ==> g1.devices[e] == g.devices[e])
            && var m1 := CarryAll(m, d, Appended(g, g1));
               if k == d then WriteMeans(g, g1, d, t, t.addr, m, m1, bank) else m1 == m
  {
    AddCidReachesDevice(g, k, t, t.addr, m, bank);
    AddCidOnlyTo(g, k, t, t.addr);
    AddCidAppends(g, k, t, t.addr);
    AddCidWrites(g, k, t);
    if k != d {
      OthersCarryNothing(m, d, Appended(g, AddCid(g, k, t).0));
    }
  }

  lemma LoopJoins(g: Gate, g1: Gate, g': Gate, k: DevId, d: DevId, t: Token, m: TokenMemory, bank: Byte)
    requires k >= 1 && k <= g.maxDevN == g1.maxDevN && DevAt(g, k).active
    requires Appends(g, g1) && Appends(g, g') && g1.db == g.db
    requires forall e: DevId :: e != k ==> g1.devices[e] == g.devices[e]
    requires var m1 := CarryAll(m, d, Appended(g, g1));
             && LoopMeans(g1, g', k + 1, d, t, m1, bank)
             && (if k == d then WriteMeans(g, g1, d, t, t.addr, m, m1, bank) else m1 == m)
             && CarryAll(m, d, Appended(g, g')) == CarryAll(m1, d, Appended(g1, g'))
    ensures LoopMeans(g, g', k, d, t, m, bank)
  {
  }

  /** `cmd_add_cid_to_all`: the card is stored at the address given, or at the global bound if
      none was; and each active device in range gets its record at that address, and its bound
      behind it. */
  lemma AddedEverywhere(g: Gate, t: Token, addr: nat, d: DevId, m: TokenMemory, bank: Byte)
    requires addr == (if t.addr < 0x00C0 then g.maxBound else t.addr) && 0x00C0 <= addr < 0x1_0000
    requires !Taken(g.db, addr, t.cid) && bank <= 1
    ensures var g' := AddCidToAll(g, t).0;
            && AddCidToAll(g, t).1
            && g'.db == Db(g.db.token[t.cid := t.(addr := addr)], g.db.mapping[addr := t.cid])
            && LoopMeans(g.(db := g'.db), g', 1, d, t.(addr := addr), m, bank)
  {
    var t1 := WithAddr(g, t);
    LoopReachesDevice(g.(db := AddToken(g.db, t1)), 1, d, t1, m, bank);
  }

  /** `cmd_add_tocken_to_all`: a card the database has is written where it is stored, with the
      attributes given, and the database stays; another is stored at the global bound and written
      there. */
  lemma TokenAddedEverywhere(g: Gate, cid: nat, attr: Byte, mask: Byte, addr: nat, d: DevId, m: TokenMemory, bank: Byte)
    requires addr == (if cid in g.db.token then g.db.token[cid].addr else g.maxBound) && 0x00C0 <= addr < 0x1_0000
    requires cid in g.db.token ==> g.db.token[cid].cid == cid
    requires !Taken(g.db, addr, cid) && bank <= 1
    ensures var g' := AddTokenToAll(g, cid, attr, mask).0;
            && AddTokenToAll(g, cid, attr, mask).1
            && g'.db == (if cid in g.db.token then g.db
                         else Db(g.db.token[cid := Token(cid, attr, mask, addr)], g.db.mapping[addr := cid]))
            && LoopMeans(g.(db := g'.db), g', 1, d, Token(cid, attr, mask, addr), m, bank)
  {
    var t := Token(cid, attr, mask, addr);
    match TokenByCid(g.db, cid)
    case None => LoopReachesDevice(g.(db := AddToken(g.db, t)), 1, d, t, m, bank);
    case Some(u) => LoopReachesDevice(g, 1, d, t, m, bank);
  }

  // ----- setting a new device up -----

  /** A request for the device's information, and one for its token bound in a bank. */
  predicate AsksInfo(z: Cmd, d: DevId) {
    z.dst == d && z.cmdN == 0x09 && z.data == [] && z.handler == NoHandler
  }

  predicate AsksBound(z: Cmd, d: DevId, bank: Byte) {
    && z.dst == d && z.cmdN == 0x04 && z.data == [bank, 0xA0, 2, 0x00, 0xBE]
    && z.target == TARGET_GET_TOKEN_BOUND && z.bank == bank
  }

  /** The door times of the program's configuration for a bank, and requests for them and for the
      clock. */
  predicate SetsTimes(z: Cmd, d: DevId, bank: Byte) {
    z.dst == d && z.cmdN == 0x05 && z.data == [bank, 0xA0, 2, 0x00, 0x00, 150, 200, 0, 0]
  }

  predicate AsksTimes(z: Cmd, d: DevId, bank: Byte) {
    z.dst == d && z.cmdN == 0x04 && z.data == [bank, 0xA0, 2, 0x00, 0x00] && z.target == TARGET_GET_TIMES
  }

  predicate AsksClock(z: Cmd, d: DevId) {
    z.dst == d && z.cmdN == 0x04 && z.data == [0x00, 0xD0, 7, 0x00, 0x00] && z.target == TARGET_GET_DATE
  }

  /** The commands carry the clock and the times to a device, and ask it for its
      information, times, bound and clock; none is for another device. */
  ghost predicate SetsUp(zs: seq<Cmd>, d: DevId, date: Rec, bank: Byte) {
    && (exists z :: z in zs && AsksInfo(z, d))
    && (exists z :: z in zs && AsksBound(z, d, bank))
    && (exists z :: z in zs && z.dst == d && z.cmdN == 0x05 && z.data == [0x00, 0xD0, 8, 0x00, 0x00] + date)
    && (exists z :: z in zs && SetsTimes(z, d, bank))
    && (exists z :: z in zs && AsksTimes(z, d, bank))
    && (exists z :: z in zs && AsksClock(z, d))
    && (forall z :: z in zs ==> z.dst == d)
  }

  /** What is queued when a device is heard for the first time: its clock and times are set, both
      banks get the program's global bound, and it is asked for its information, for its times and
      bounds in both banks and for its clock. */
  lemma SetUpReaches(g: Gate, m: TokenMemory, bank: Byte)
    requires !g.devices[g.dev].inited && bank <= 1
    ensures var g' := GpLayer.ReadStart(g);
            && Appends(g, g') && SetsUp(Appended(g, g'), g.dev, g.date, bank)
            && BoundIn(CarryAll(m, g.dev, Appended(g, g')), bank) == g.maxBound
  {
    SetUpQueued(g);
    SetUpMeans(g.dev, g.maxBound, g.date, bank);
    SetUpBound(m, g.dev, g.maxBound, g.date, bank);
  }

  lemma SetUpQueued(g: Gate)
    requires !g.devices[g.dev].inited
    ensures var g' := GpLayer.ReadStart(g);
            Appends(g, g') && Appended(g, g') == DevInit(g.dev, g.maxBound, g.date)
  {
    InCmdsSecond(g.q, DevInit(g.dev, g.maxBound, g.date));
  }

  lemma SetUpMeans(d: DevId, bound: Word, date: Rec, bank: Byte)
    requires bank <= 1
    ensures SetsUp(DevInit(d, bound, date), d, date, bank)
  {
    SetUpCommands(d, bound, date, bank);
    SetUpTimes(d, bound, date, bank);
  }

  lemma SetUpCommands(d: DevId, bound: Word, date: Rec, bank: Byte)
    requires bank <= 1
    ensures var zs := DevInit(d, bound, date);
            && (exists z :: z in zs && AsksInfo(z, d)) && (exists z :: z in zs && AsksBound(z, d, bank))
            && (exists z :: z in zs && z.dst == d && z.cmdN == 0x05 && z.data == [0x00, 0xD0, 8, 0x00, 0x00] + date)
            && (forall z :: z in zs ==> z.dst == d)
  {
    var zs := DevInit(d, bound, date);
    assert SetDate(Second, d, date) in zs && GetInfo(Second, d) in zs;
    SetUpAsksBound(d, bound, date, bank);
    assert AsksInfo(GetInfo(Second, d), d);
    SetUpOnlyTo(d, bound, date);
  }

  lemma SetUpTimes(d: DevId, bound: Word, date: Rec, bank: Byte)
    requires bank <= 1
    ensures exists z :: z in DevInit(d, bound, date) && SetsTimes(z, d, bank)
    ensures exists z :: z in DevInit(d, bound, date) && AsksTimes(z, d, bank)
    ensures exists z :: z in DevInit(d, bound, date) && AsksClock(z, d)
  {
    var z, y := SetTimes(Second, d)[bank], GetTimes(Second, d)[bank];
    assert z in SetTimes(Second, d) && SetsTimes(z, d, bank);
    assert y in GetTimes(Second, d) && AsksTimes(y, d, bank);
    assert GetDate(Second, d) in DevInit(d, bound, date) && AsksClock(GetDate(Second, d), d);
  }

  lemma SetUpAsksBound(d: DevId, bound: Word, date: Rec, bank: Byte)
    requires bank <= 1
    ensures exists z :: z in DevInit(d, bound, date) && AsksBound(z, d, bank)
  {
    var z := GetTokenBound(Second, d, NoHandler)[bank];
    assert z in GetTokenBound(Second, d, NoHandler);
    assert AsksBound(z, d, bank);
  }

  lemma SetUpOnlyTo(d: DevId, bound: Word, date: Rec)
    ensures forall z :: z in DevInit(d, bound, date) ==> z.dst == d
  {
  }

  /** Of those commands, the bound write is the only one to touch the bound. */
  lemma SetUpBound(m: TokenMemory, d: DevId, bound: Word, date: Rec, bank: Byte)
    requires bank <= 1
    ensures BoundIn(CarryAll(m, d, DevInit(d, bound, date)), bank) == bound
  {
    var before := [SetDate(Second, d, date)] + SetTimes(Second, d);
    var behind := [GetInfo(Second, d)] + GetTokenBound(Second, d, NoHandler) + GetTimes(Second, d)
                  + [GetDate(Second, d)];
    assert DevInit(d, bound, date) == before + SetTokenBound(Second, d, bound) + behind;
    var m1 := CarryAll(m, d, before);
    CarryConcat(m, d, before, SetTokenBound(Second, d, bound));
    CarryConcat(m, d, before + SetTokenBound(Second, d, bound), behind);
    SetBoundCarried(m1, d, bound);
    BoundReads(BankOf(m1, bank), bound);
    ReadsCarryNothing(CarryAll(m1, d, SetTokenBound(Second, d, bound)), d, behind);
  }

  lemma {:induction false} ReadsCarryNothing(m: TokenMemory, d: DevId, zs: seq<Cmd>)
    requires forall z :: z in zs ==> z.cmdN != CMD_SET
    ensures CarryAll(m, d, zs) == m
  {
    if zs != [] {
      ReadsCarryNothing(m, d, zs[..|zs| - 1]);
    }
  }

  // ----- load mode -----

  /** Whether a device is being loaded, after some commands: 0x66 with 0x73 turns that on, with
      any other byte off. */
  function Loading(on: bool, d: DevId, zs: seq<Cmd>): bool {
    if zs == [] then on
    else
      var z := zs[|zs| - 1];
      if z.dst == d && z.cmdN == 0x66 && z.data != [] then z.data[0] == 0x73
      else Loading(on, d, zs[..|zs| - 1])
  }

  lemma {:induction false} TokensKeepLoading(on: bool, db: Db, d: DevId, revert: bool, pre: seq<Cmd>,
                                             order: seq<nat>, k: nat)
    requires (forall c :: c in order ==> c in db.token) && k <= |ReloadTokens(db, d, revert, order)|
    ensures Loading(on, d, pre + ReloadTokens(db, d, revert, order)[..k]) == Loading(on, d, pre)
    decreases |order|, k
  {
    var zs := ReloadTokens(db, d, revert, order);
    if k == 0 {
      assert pre + zs[..0] == pre;
    } else {
      TokensKeepLoading(on, db, d, revert, pre, order, k - 1);
      assert (pre + zs[..k])[..|pre + zs[..k]| - 1] == pre + zs[..k - 1];
      ReloadOnlyTokens(db, d, revert, order);
    }
  }

  lemma {:induction false} ReloadOnlyTokens(db: Db, d: DevId, revert: bool, order: seq<nat>)
    requires forall c :: c in order ==> c in db.token
    ensures forall z :: z in ReloadTokens(db, d, revert, order) ==>
              z.dst == d && z.cmdN == CMD_SET && z.target == TARGET_SET_TOKEN
  {
    if order != [] {
      ReloadOnlyTokens(db, d, revert, order[..|order| - 1]);
    }
  }

  /** During a reload the device is in load mode at every token record, and it is out of it at
      the end, whatever it was before. */
  lemma ReloadWithinLoad(on: bool, g: Gate, d: DevId, order: seq<nat>, k: nat)
    requires forall c :: c in order ==> c in g.db.token
    ensures var g' := AdCmd.Reload(g, d, order);
            && g.q.first <= g'.q.first && g'.q.second == g.q.second
            && var queued := g'.q.first[|g.q.first|..];
               && !Loading(on, d, queued)
               && (k < |queued| && queued[k].target == TARGET_SET_TOKEN ==> Loading(on, d, queued[..k]))
  {
    var revert := DevAt(g, d).revert;
    var tokens, pre := ReloadTokens(g.db, d, revert, order), [PrepLoad(First, d, true)];
    var queued := ReloadCmds(g.db, d, revert, order);
    ReloadQueued(g, d, order);
    assert (g.q.first + queued)[|g.q.first|..] == queued;
    assert queued[|queued| - 1] == PrepLoad(First, d, false);
    if k < |queued| && queued[k].target == TARGET_SET_TOKEN {
      assert 1 <= k < |queued| - 1 && queued[..k] == pre + tokens[..k - 1];
      TokensKeepLoading(on, g.db, d, revert, pre, order, k - 1);
    }
  }
}
