/** Reloading a device (`cmd_reload_dev`): its token memory once the first-class commands have
    been carried out. What the waiting second-class records then do is in ReloadDrain. */
module Reload {
  import opened LibGate
  import opened GateState
  import opened GpQueue
  import opened DbLayer
  import opened AdTarget
  import opened AdCmd
  import opened CardBytes
  import opened Memory

  /** One token bank of a device. */
  type Bank = s: seq<Byte> | |s| == U16 witness seq<Byte>(U16, _ => 0)

  datatype TokenMemory = TokenMemory(bank0: Bank, bank1: Bank)

  /** A write of device `d` to one of its banks: bank, address and length are read from the
      command's bytes. */
  predicate WritesBank(z: Cmd, d: DevId, bank: Byte) {
    z.dst == d && WritesTokens(z.cmdN, z.data, bank)
  }

  /** What device `d` does with a command on its line. */
  function Carry(m: TokenMemory, d: DevId, z: Cmd): TokenMemory {
    if WritesBank(z, d, 0) then m.(bank0 := Write(m.bank0, Begin(z.data), z.data[5..5 + z.data[2]]))
    else if WritesBank(z, d, 1) then m.(bank1 := Write(m.bank1, Begin(z.data), z.data[5..5 + z.data[2]]))
    else m
  }

  function CarryAll(m: TokenMemory, d: DevId, zs: seq<Cmd>): TokenMemory {
    if zs == [] then m else Carry(CarryAll(m, d, zs[..|zs| - 1]), d, zs[|zs| - 1])
  }

  lemma CarrySnoc(m: TokenMemory, d: DevId, zs: seq<Cmd>, z: Cmd)
    ensures CarryAll(m, d, zs + [z]) == Carry(CarryAll(m, d, zs), d, z)
  {
    assert (zs + [z])[..|zs|] == zs;
  }

  /** A record is in place in a bank. */
  predicate Holds(b: Bank, addr: nat, record: Rec) {
    addr + TICKET_SIZE <= U16 && b[addr..addr + TICKET_SIZE] == record
  }

  /** Both banks hold a card's record. */
  predicate BothHold(m: TokenMemory, t: Token, revert: bool) {
    Holds(m.bank0, t.addr, TokenRecord(t, revert)) && Holds(m.bank1, t.addr, TokenRecord(t, revert))
  }

  /** And so for every card of a list. */
  ghost predicate AllHeld(m: TokenMemory, db: Db, revert: bool, order: seq<nat>)
    requires forall c :: c in order ==> c in db.token
  {
    forall c :: c in order ==> BothHold(m, db.token[c], revert)
  }

  predicate SlotsApart(a: nat, b: nat) {
    a + TICKET_SIZE <= b || b + TICKET_SIZE <= a
  }

  /** Slots are apart and end inside the address range. */
  ghost predicate Spaced(db: Db) {
    && (forall c :: c in db.token ==> db.token[c].addr + TICKET_SIZE <= U16)
    && (forall c, e :: c in db.token && e in db.token && c != e ==>
          SlotsApart(db.token[c].addr, db.token[e].addr))
  }

  predicate Aligned(addr: nat) {
    addr % TICKET_SIZE == 0 && addr < U16
  }

  /** Aligned addresses of an agreeing database are spaced. */
  lemma AlignedIsSpaced(db: Db)
    requires Index(db) && 0 !in db.token
    requires forall c :: c in db.token ==> Aligned(db.token[c].addr)
    ensures Spaced(db)
  {
    AlignedSlotsEnd(db);
    AlignedSlotsApart(db);
  }

  lemma AlignedSlotsApart(db: Db)
    requires Index(db) && 0 !in db.token
    requires forall c :: c in db.token ==> Aligned(db.token[c].addr)
    ensures forall c, e :: c in db.token && e in db.token && c != e ==> SlotsApart(db.token[c].addr, db.token[e].addr)
  {
    forall c, e | c in db.token && e in db.token && c != e
      ensures SlotsApart(db.token[c].addr, db.token[e].addr)
    {
      assert Aligned(db.token[c].addr) && Aligned(db.token[e].addr);
      TokensApart(db, c, e);
    }
  }

  lemma AlignedSlotsEnd(db: Db)
    requires forall c :: c in db.token ==> Aligned(db.token[c].addr)
    ensures forall c :: c in db.token ==> db.token[c].addr + TICKET_SIZE <= U16
  {
    forall c | c in db.token
      ensures db.token[c].addr + TICKET_SIZE <= U16
    {
      AlignedEnds(db.token[c].addr);
    }
  }

  lemma TokensApart(db: Db, c: nat, e: nat)
    requires Index(db) && 0 !in db.token && c in db.token && e in db.token && c != e
    requires Aligned(db.token[c].addr) && Aligned(db.token[e].addr)
    ensures SlotsApart(db.token[c].addr, db.token[e].addr)
  {
    NoSharedAddress(db, c, e);
    AlignedApart(db.token[c].addr, db.token[e].addr);
  }

  lemma AlignedEnds(a: nat)
    requires Aligned(a)
    ensures a + TICKET_SIZE <= U16
  {
  }

  lemma AlignedApart(a: nat, b: nat)
    requires Aligned(a) && Aligned(b) && a != b
    ensures SlotsApart(a, b)
  {
  }

  lemma WriteHolds(b: Bank, addr: nat, record: Rec)
    requires addr + TICKET_SIZE <= U16
    ensures Holds(Write(b, addr, record), addr, record)
  {
  }

  lemma WriteKeeps(b: Bank, at: nat, w: Rec, addr: nat, record: Rec)
    requires at + TICKET_SIZE <= U16 && Holds(b, addr, record)
    requires addr + TICKET_SIZE <= at || at + TICKET_SIZE <= addr
    ensures Holds(Write(b, at, w), addr, record)
  {
    assert Write(b, at, w)[addr..addr + TICKET_SIZE] == b[addr..addr + TICKET_SIZE];
  }

  /** The pair for one token writes its record into both banks. */
  lemma PairCarried(m: TokenMemory, d: DevId, addr: Word, record: Rec)
    requires addr + TICKET_SIZE <= U16
    ensures var zs := SetToken(First, d, addr, record);
            Carry(Carry(m, d, zs[0]), d, zs[1])
              == TokenMemory(Write(m.bank0, addr, record), Write(m.bank1, addr, record))
  {
    var data := [0x00, 0xA0, 8] + ToBe16(addr) + record;
    Be16RoundTrip([0x00, 0xA0, 8], addr, record);
    assert data[5..13] == record;
    var data1 := data[0 := 1];
    assert data1[5..13] == record && Begin(data1) == addr;
  }

  lemma {:induction false} TokensCarried(m: TokenMemory, d: DevId, pre: seq<Cmd>, db: Db, revert: bool, order: seq<nat>)
    requires Spaced(db) && forall c :: c in order ==> c in db.token
    ensures AllHeld(CarryAll(m, d, pre + ReloadTokens(db, d, revert, order)), db, revert, order)
  {
    if order != [] {
      var front, c := order[..|order| - 1], order[|order| - 1];
      var t := db.token[c];
      var zs := pre + ReloadTokens(db, d, revert, front);
      var record := TokenRecord(t, revert);
      var pair := SetToken(First, d, t.addr, record);
      TokensCarried(m, d, pre, db, revert, front);
      var m1 := CarryAll(m, d, zs);
      SnocPair(m, d, zs, pair);
      PairCarried(m1, d, t.addr, record);
      OneMoreHeld(m1, db, revert, front, c);
      ReloadSnoc(db, d, revert, order);
      CmdsAssoc(pre, ReloadTokens(db, d, revert, front), pair);
      FrontAndLast(order);
    }
  }

  lemma FrontAndLast(s: seq<nat>)
    requires s != []
    ensures s == s[..|s| - 1] + [s[|s| - 1]]
  {
  }

  lemma CmdsAssoc(a: seq<Cmd>, b: seq<Cmd>, c: seq<Cmd>)
    ensures a + (b + c) == a + b + c
  {
  }

  lemma SnocPair(m: TokenMemory, d: DevId, zs: seq<Cmd>, pair: seq<Cmd>)
    requires |pair| == 2
    ensures CarryAll(m, d, zs + pair) == Carry(Carry(CarryAll(m, d, zs), d, pair[0]), d, pair[1])
  {
    CarrySnoc(m, d, zs, pair[0]);
    CarrySnoc(m, d, zs + [pair[0]], pair[1]);
    assert zs + pair == zs + [pair[0]] + [pair[1]];
  }

  lemma OneMoreHeld(m: TokenMemory, db: Db, revert: bool, front: seq<nat>, c: nat)
    requires Spaced(db) && c in db.token && forall e :: e in front ==> e in db.token
    requires AllHeld(m, db, revert, front)
    ensures db.token[c].addr + TICKET_SIZE <= U16
    ensures var t, record := db.token[c], TokenRecord(db.token[c], revert);
            AllHeld(TokenMemory(Write(m.bank0, t.addr, record), Write(m.bank1, t.addr, record)),
                    db, revert, front + [c])
  {
    var t, record := db.token[c], TokenRecord(db.token[c], revert);
    WriteHolds(m.bank0, t.addr, record);
    WriteHolds(m.bank1, t.addr, record);
    forall e | e in front && e != c
      ensures Holds(Write(m.bank0, t.addr, record), db.token[e].addr, TokenRecord(db.token[e], revert))
      ensures Holds(Write(m.bank1, t.addr, record), db.token[e].addr, TokenRecord(db.token[e], revert))
    {
      WriteKeeps(m.bank0, t.addr, record, db.token[e].addr, TokenRecord(db.token[e], revert));
      WriteKeeps(m.bank1, t.addr, record, db.token[e].addr, TokenRecord(db.token[e], revert));
    }
  }

  /** Where slots do overlap, a card's record is in place after a reload if all slots of the
      cards met after it are apart from its own. So of cards at one address, card 0's and
      another's say, the one met last wins. */
  lemma LastReloadedWins(m: TokenMemory, d: DevId, db: Db, revert: bool, order: seq<nat>, i: nat)
    requires i < |order| && forall c :: c in order ==> c in db.token && db.token[c].addr + TICKET_SIZE <= U16
    requires forall j :: i < j < |order| ==> SlotsApart(db.token[order[j]].addr, db.token[order[i]].addr)
    ensures BothHold(CarryAll(m, d, ReloadCmds(db, d, revert, order)), db.token[order[i]], revert)
  {
    var pre := [PrepLoad(First, d, true)];
    SlotStays(m, d, pre, db, revert, order, i);
    CarrySnoc(m, d, pre + ReloadTokens(db, d, revert, order), PrepLoad(First, d, false));
  }

  lemma {:induction false} SlotStays(m: TokenMemory, d: DevId, pre: seq<Cmd>, db: Db, revert: bool,
                                     order: seq<nat>, i: nat)
    requires i < |order| && forall c :: c in order ==> c in db.token && db.token[c].addr + TICKET_SIZE <= U16
    requires forall j :: i < j < |order| ==> SlotsApart(db.token[order[j]].addr, db.token[order[i]].addr)
    ensures BothHold(CarryAll(m, d, pre + ReloadTokens(db, d, revert, order)), db.token[order[i]], revert)
    decreases |order|
  {
    var front, t := order[..|order| - 1], db.token[order[|order| - 1]];
    var zs, record := pre + ReloadTokens(db, d, revert, front), TokenRecord(t, revert);
    var m1 := CarryAll(m, d, zs);
    ReloadSnoc(db, d, revert, order);
    CmdsAssoc(pre, ReloadTokens(db, d, revert, front), SetToken(First, d, t.addr, record));
    SnocPair(m, d, zs, SetToken(First, d, t.addr, record));
    PairCarried(m1, d, t.addr, record);
    if i == |order| - 1 {
      WriteHolds(m1.bank0, t.addr, record);
      WriteHolds(m1.bank1, t.addr, record);
    } else {
      var u := db.token[order[i]];
      SlotStays(m, d, pre, db, revert, front, i);
      WriteKeeps(m1.bank0, t.addr, record, u.addr, TokenRecord(u, revert));
      WriteKeeps(m1.bank1, t.addr, record, u.addr, TokenRecord(u, revert));
    }
  }

  lemma {:induction false} ReloadTokensFirst(db: Db, d: DevId, revert: bool, order: seq<nat>)
    requires forall c :: c in order ==> c in db.token
    ensures forall k :: 0 <= k < |ReloadTokens(db, d, revert, order)| ==>
              ReloadTokens(db, d, revert, order)[k].queue == First
  {
    if order != [] {
      ReloadTokensFirst(db, d, revert, order[..|order| - 1]);
    }
  }

  lemma ReloadQueued(g: Gate, d: DevId, order: seq<nat>)
    requires forall c :: c in order ==> c in g.db.token
    ensures Reload(g, d, order).q
         == g.q.(first := g.q.first + ReloadCmds(g.db, d, DevAt(g, d).revert, order))
  {
    ReloadTokensFirst(g.db, d, DevAt(g, d).revert, order);
    InCmdsFirst(g.q, ReloadCmds(g.db, d, DevAt(g, d).revert, order));
  }

  /** Whatever was queued before and whatever the device held: once its first-class commands
      have been carried out, every card of the database has its record at its own address
      in both banks, in whichever order the cursor met the cards. */
  lemma FirstClassRestores(g: Gate, d: DevId, order: seq<nat>, m: TokenMemory)
    requires Spaced(g.db) && forall c :: c in order <==> c in g.db.token
    ensures AllHeld(CarryAll(m, d, Reload(g, d, order).q.first), g.db, DevAt(g, d).revert, order)
  {
    var revert := DevAt(g, d).revert;
    var pre, tokens := g.q.first + [PrepLoad(First, d, true)], ReloadTokens(g.db, d, revert, order);
    ReloadQueued(g, d, order);
    TokensCarried(m, d, pre, g.db, revert, order);
    CarrySnoc(m, d, pre + tokens, PrepLoad(First, d, false));
    CmdsAssoc(g.q.first, [PrepLoad(First, d, true)], tokens);
    CmdsAssoc(g.q.first, [PrepLoad(First, d, true)] + tokens, [PrepLoad(First, d, false)]);
  }

  /** Reading a slot back in the device's byte order gives the card's low 48 bits. */
  lemma SlotReadsBack(b: Bank, t: Token, revert: bool)
    requires Holds(b, t.addr, TokenRecord(t, revert))
    ensures Bin2Int(b[t.addr..t.addr + 6], 6, revert) == t.cid % Pow256(6)
  {
    Bin2IntUndoesInt2Bin(t.cid, 6, revert);
    assert b[t.addr..t.addr + 6] == TokenRecord(t, revert)[..6] == Int2BinBytes(t.cid, 6, revert) by {
      assert b[t.addr..t.addr + 6] == b[t.addr..t.addr + TICKET_SIZE][..6];
    }
  }
}
