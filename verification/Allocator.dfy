/** Handing out token addresses: when an add without an address succeeds, and when two in a
    row do (src/ad_cmd.c, and the seed in `gp_init`). */
module Allocator {
  import opened LibGate
  import opened GateState
  import opened DbLayer
  import opened AdTarget
  import opened AdCmd

  /** Device `k` is active, within the range of the loop, and its bound is not past `addr`. */
  predicate Raises(g: Gate, d: nat, addr: nat, k: DevId) {
    d <= k <= g.maxDevN && DevAt(g, k).active && DevAt(g, k).boundToken <= addr
  }

  ghost predicate SomeRaises(g: Gate, d: nat, addr: nat) {
    exists k: DevId :: Raises(g, d, addr, k)
  }

  /** What the loop over devices leaves when no device refuses: the bounds that were not past
      the address now are, and the global bound follows exactly if there was one. */
  ghost predicate BoundsRaised(g: Gate, g': Gate, d: nat, addr: nat) {
    var bound := (addr + TICKET_SIZE) % U16;
    && g'.db == g.db && g'.maxDevN == g.maxDevN
    && g'.maxBound == (if SomeRaises(g, d, addr) then Max(g.maxBound, bound) else g.maxBound)
    && (forall k: DevId ::
          && DevAt(g', k).active == DevAt(g, k).active
          && DevAt(g', k).boundToken == if Raises(g, d, addr, k) then bound else DevAt(g, k).boundToken)
  }

  /** One write: the bound of device `d` and the global one follow if the device's was not
      past the address. */
  ghost predicate OneRaised(g: Gate, g1: Gate, d: DevId, addr: nat) {
    var bound := (addr + TICKET_SIZE) % U16;
    && g1.db == g.db && g1.maxDevN == g.maxDevN
    && g1.maxBound == (if DevAt(g, d).boundToken <= addr then Max(g.maxBound, bound) else g.maxBound)
    && g1.devices == (if DevAt(g, d).boundToken <= addr
                      then g.devices[d := DevAt(g, d).(boundToken := bound)] else g.devices)
  }

  lemma AddCidWrites(g: Gate, d: DevId, t: Token)
    requires START_TICKET_BOUND <= t.addr < U16 && !Taken(g.db, t.addr, t.cid)
    ensures AddCid(g, d, t).1 && OneRaised(g, AddCid(g, d, t).0, d, t.addr)
  {
    AddCidForm(g, d, t);
    RaiseBoundWrites(Queue(g, SetToken(Second, d, t.addr, TokenRecord(t, DevAt(g, d).revert))), d,
                     (t.addr + TICKET_SIZE) % U16);
  }

  lemma RaiseBoundWrites(g: Gate, d: DevId, bound: Word)
    ensures var g1 := RaiseBound(g, d, bound);
            && g1.db == g.db && g1.maxDevN == g.maxDevN && g1.maxBound == Max(g.maxBound, bound)
            && g1.devices == g.devices[d := DevAt(g, d).(boundToken := bound)]
  {
  }

  lemma {:induction false} AddToDevicesWrites(g: Gate, t: Token, d: nat)
    requires START_TICKET_BOUND <= t.addr < U16 && !Taken(g.db, t.addr, t.cid) && d >= 1
    ensures AddToDevices(g, t, d).1 && BoundsRaised(g, AddToDevices(g, t, d).0, d, t.addr)
    decreases 256 - d
  {
    if d <= g.maxDevN {
      if !DevAt(g, d).active {
        AddToDevicesWrites(g, t, d + 1);
        SkipDevice(g, AddToDevices(g, t, d + 1).0, d, t.addr);
      } else {
        AddCidWrites(g, d, t);
        var g1 := AddCid(g, d, t).0;
        AddToDevicesWrites(g1, t, d + 1);
        TakeDevice(g, g1, AddToDevices(g1, t, d + 1).0, d, t.addr);
      }
    }
  }

  lemma SkipDevice(g: Gate, g': Gate, d: DevId, addr: nat)
    requires !DevAt(g, d).active && BoundsRaised(g, g', d + 1, addr)
    ensures BoundsRaised(g, g', d, addr)
  {
    assert forall k: DevId :: Raises(g, d, addr, k) <==> Raises(g, d + 1, addr, k);
    if SomeRaises(g, d + 1, addr) {
      var k: DevId :| Raises(g, d + 1, addr, k);
      assert Raises(g, d, addr, k);
    }
    if SomeRaises(g, d, addr) {
      var k: DevId :| Raises(g, d, addr, k);
      assert Raises(g, d + 1, addr, k);
    }
  }

  lemma TakeDevice(g: Gate, g1: Gate, g': Gate, d: DevId, addr: nat)
    requires DevAt(g, d).active && d <= g.maxDevN && BoundsRaised(g1, g', d + 1, addr)
    requires OneRaised(g, g1, d, addr)
    ensures BoundsRaised(g, g', d, addr)
  {
    assert forall k: DevId :: Raises(g, d, addr, k) <==>
      (if k == d then DevAt(g, d).boundToken <= addr else Raises(g1, d + 1, addr, k));
    if DevAt(g, d).boundToken <= addr {
      assert Raises(g, d, addr, d);
    } else {
      if SomeRaises(g1, d + 1, addr) {
        var k: DevId :| Raises(g1, d + 1, addr, k);
        assert Raises(g, d, addr, k);
      }
      if SomeRaises(g, d, addr) {
        var k: DevId :| Raises(g, d, addr, k);
        assert Raises(g1, d + 1, addr, k);
      }
    }
  }

  // ----- adds without an address -----

  predicate NoAddr(t: Token) {
    t.addr < START_TICKET_BOUND
  }

  /** The global bound is a slot behind every mapped address. */
  ghost predicate Behind(g: Gate) {
    g.maxBound >= START_TICKET_BOUND && forall a :: a in g.db.mapping ==> a + TICKET_SIZE <= g.maxBound
  }

  /** The next add will move the global bound on. */
  ghost predicate CanAdvance(g: Gate) {
    g.maxBound + TICKET_SIZE < U16 && SomeRaises(g, 1, g.maxBound)
  }

  /** An add without an address then succeeds at the unmapped address `max_bound_token`, and
      the bound advances by a slot exactly when some active device's bound is not past it. */
  lemma AddSucceeds(g: Gate, t: Token)
    requires Behind(g) && NoAddr(t)
    ensures var (g', ok) := AddCidToAll(g, t);
            && ok && g.maxBound !in g.db.mapping
            && g'.db.mapping == g.db.mapping[g.maxBound := t.cid]
            && t.cid in g'.db.token && g'.db.token[t.cid].addr == g.maxBound
            && (g'.maxBound == g.maxBound + TICKET_SIZE <==> CanAdvance(g))
            && (!CanAdvance(g) ==> g'.maxBound == g.maxBound)
  {
    var t1 := WithAddr(g, t);
    var g1 := g.(db := AddToken(g.db, t1));
    AddToDevicesWrites(g1, t1, 1);
    SameRaises(g, g1, 1, g.maxBound);
    BoundAdvances(g, g1, AddToDevices(g1, t1, 1).0);
  }

  lemma SameRaises(g: Gate, g1: Gate, d: nat, addr: nat)
    requires g1.devices == g.devices && g1.maxDevN == g.maxDevN
    ensures SomeRaises(g1, d, addr) <==> SomeRaises(g, d, addr)
  {
    assert forall k: DevId :: Raises(g1, d, addr, k) <==> Raises(g, d, addr, k);
  }

  lemma BoundAdvances(g: Gate, g1: Gate, g': Gate)
    requires g1.maxBound == g.maxBound && BoundsRaised(g1, g', 1, g.maxBound)
    requires SomeRaises(g1, 1, g.maxBound) <==> SomeRaises(g, 1, g.maxBound)
    ensures g'.maxBound == g.maxBound + TICKET_SIZE <==> CanAdvance(g)
    ensures !CanAdvance(g) ==> g'.maxBound == g.maxBound
  {
  }

  /** Advancing keeps the condition for the next add. */
  lemma AdvanceKeepsBehind(g: Gate, t: Token)
    requires Behind(g) && NoAddr(t) && CanAdvance(g)
    ensures var g' := AddCidToAll(g, t).0; Behind(g') && SomeRaises(g', 1, g'.maxBound)
  {
    AddSucceeds(g, t);
    AdvanceRaises(g, t);
  }

  lemma AdvanceRaises(g: Gate, t: Token)
    requires Behind(g) && NoAddr(t) && CanAdvance(g)
    ensures SomeRaises(AddCidToAll(g, t).0, 1, g.maxBound + TICKET_SIZE)
  {
    var t1 := WithAddr(g, t);
    var g1 := g.(db := AddToken(g.db, t1));
    AddToDevicesWrites(g1, t1, 1);
    var k: DevId :| Raises(g, 1, g.maxBound, k);
    assert Raises(g1, 1, t1.addr, k);
    RaisedAgain(g1, AddToDevices(g1, t1, 1).0, t1.addr, k);
  }

  /** A device whose bound was raised can be raised again at the next slot. */
  lemma RaisedAgain(g: Gate, g': Gate, addr: nat, k: DevId)
    requires BoundsRaised(g, g', 1, addr) && Raises(g, 1, addr, k) && addr + TICKET_SIZE < U16
    ensures SomeRaises(g', 1, addr + TICKET_SIZE)
  {
    assert Raises(g', 1, addr + TICKET_SIZE, k);
  }

  /** Two adds in a row of different cards are both stored exactly when the first advances
      the bound. With no active device, or only devices whose bound is already past the
      global one, the second card gets the first card's address and is refused. */
  lemma SecondAddStored(g: Gate, t: Token, u: Token)
    requires Behind(g) && NoAddr(t) && NoAddr(u) && t.cid != 0 && u.cid != t.cid
    ensures var g' := AddCidToAll(g, t).0;
            !Taken(g'.db, WithAddr(g', u).addr, u.cid) <==> CanAdvance(g)
  {
    AddSucceeds(g, t);
  }

  /** A run of adds without an address. */
  function AddMany(g: Gate, ts: seq<Token>): Gate
    decreases ts
  {
    if ts == [] then g else AddMany(AddCidToAll(g, ts[0]).0, ts[1..])
  }

  /** The state after adds that each got the next slot from `base` on. */
  ghost predicate Slotted(mapping: map<nat, nat>, mapping': map<nat, nat>, base: nat, ts: seq<Token>) {
    && (forall a :: a in mapping ==> a in mapping' && mapping'[a] == mapping[a])
    && (forall k :: 0 <= k < |ts| ==>
          base + TICKET_SIZE * k in mapping' && mapping'[base + TICKET_SIZE * k] == ts[k].cid)
  }

  /** Successive adds get successive slots, and keep them. */
  lemma {:induction false} AddManySlots(g: Gate, ts: seq<Token>)
    requires Behind(g) && SomeRaises(g, 1, g.maxBound) && forall k :: 0 <= k < |ts| ==> NoAddr(ts[k])
    requires g.maxBound + TICKET_SIZE * |ts| < U16
    ensures AddMany(g, ts).maxBound == g.maxBound + TICKET_SIZE * |ts|
    ensures Slotted(g.db.mapping, AddMany(g, ts).db.mapping, g.maxBound, ts)
    decreases ts
  {
    if ts != [] {
      var g1 := AddCidToAll(g, ts[0]).0;
      AddSucceeds(g, ts[0]);
      AdvanceKeepsBehind(g, ts[0]);
      AddManySlots(g1, ts[1..]);
      SlottedCons(g.db.mapping, AddMany(g1, ts[1..]).db.mapping, g.maxBound, ts);
    }
  }

  lemma SlottedCons(mapping: map<nat, nat>, mapping': map<nat, nat>, base: nat, ts: seq<Token>)
    requires ts != [] && base !in mapping
    requires Slotted(mapping[base := ts[0].cid], mapping', base + TICKET_SIZE, ts[1..])
    ensures Slotted(mapping, mapping', base, ts)
  {
    var first := mapping[base := ts[0].cid];
    forall k | 0 <= k < |ts|
      ensures base + TICKET_SIZE * k in mapping' && mapping'[base + TICKET_SIZE * k] == ts[k].cid
    {
      if k == 0 {
        assert base in first;
      } else {
        assert ts[k] == ts[1..][k - 1] && base + TICKET_SIZE * k == base + TICKET_SIZE + TICKET_SIZE * (k - 1);
      }
    }
    assert forall a :: a in mapping ==> a in first && first[a] == mapping[a];
  }

  /** The seed of `gp_init` puts the global bound behind every mapped address, exactly when
      the highest address leaves room for one more slot in 16 bits. */
  lemma SeedIsBehind(g: Gate, m: nat)
    requires IsMaxAddr(g.db, m) && forall a :: a in g.db.mapping ==> a < U16
    ensures m < U16
    ensures Behind(g.(maxBound := (m + TICKET_SIZE) % U16)) <==> m + TICKET_SIZE < U16
  {
  }

  // ----- attributes -----

  lemma {:induction false} AddToDevicesKeepsDb(g: Gate, t: Token, d: nat)
    requires d >= 1
    ensures AddToDevices(g, t, d).0.db == g.db
    decreases 256 - d
  {
    if d <= g.maxDevN {
      if !DevAt(g, d).active {
        AddToDevicesKeepsDb(g, t, d + 1);
      } else if AddCid(g, d, t).1 {
        AddToDevicesKeepsDb(AddCid(g, d, t).0, t, d + 1);
      }
    }
  }

  /** Attributes given to a card that the database did not know are saved with it. Those of a
      known card are not: the database stays as it was, and afterwards holds the given ones
      if and only if it did before. */
  lemma KnownCardKeepsOldAttributes(g: Gate, cid: nat, attr: Byte, mask: Byte)
    requires Behind(g)
    ensures var db := AddTokenToAll(g, cid, attr, mask).0.db;
            && cid in db.token && (cid in g.db.token ==> db == g.db)
            && (db.token[cid].attr == attr && db.token[cid].mask == mask
                <==> cid !in g.db.token || (g.db.token[cid].attr == attr && g.db.token[cid].mask == mask))
  {
    match TokenByCid(g.db, cid)
    case None =>
      var t := Token(cid, attr, mask, g.maxBound);
      AddToDevicesKeepsDb(g.(db := AddToken(g.db, t)), t, 1);
    case Some(t) => AddToDevicesKeepsDb(g, t.(attr := attr, mask := mask), 1);
  }

  // ----- refusals -----

  ghost predicate NoneActive(g: Gate, d: nat) {
    forall k: DevId :: d <= k <= g.maxDevN ==> !DevAt(g, k).active
  }

  /** A card whose address another card owns is refused by the first active device, so the
      loop returns 1 only when there is none. */
  lemma {:induction false} RefusedByAll(g: Gate, t: Token, d: nat)
    requires START_TICKET_BOUND <= t.addr < U16 && Taken(g.db, t.addr, t.cid) && d >= 1
    ensures AddToDevices(g, t, d).1 <==> NoneActive(g, d)
    decreases 256 - d
  {
    if d <= g.maxDevN {
      if DevAt(g, d).active {
        assert TokenAddr(g, d, t) == t.addr;
        assert !AddToDevices(g, t, d).1;
      } else {
        RefusedByAll(g, t, d + 1);
        assert NoneActive(g, d) <==> NoneActive(g, d + 1);
      }
    }
  }

  /** `cmd_add_cid_to_all` returns 1 if and only if the database has stored the record or no
      device is active: a refusal by the database alone is not reported. */
  lemma AddReportsSuccess(g: Gate, t: Token)
    requires START_TICKET_BOUND <= WithAddr(g, t).addr < U16
    ensures AddCidToAll(g, t).1 <==> !Taken(g.db, WithAddr(g, t).addr, t.cid) || NoneActive(g, 1)
  {
    var t1 := WithAddr(g, t);
    LoopReports(g, g.(db := AddToken(g.db, t1)), t1);
  }

  /** So for `cmd_add_tocken_to_all`, where a card already stored counts as stored. */
  lemma AddTokenReportsSuccess(g: Gate, cid: nat, attr: Byte, mask: Byte)
    requires cid in g.db.token ==> g.db.token[cid].cid == cid
    requires var addr := if cid in g.db.token then g.db.token[cid].addr else g.maxBound;
             START_TICKET_BOUND <= addr < U16
    ensures var addr := if cid in g.db.token then g.db.token[cid].addr else g.maxBound;
            AddTokenToAll(g, cid, attr, mask).1 <==> !Taken(g.db, addr, cid) || NoneActive(g, 1)
  {
    match TokenByCid(g.db, cid)
    case None => LoopReports(g, g.(db := AddToken(g.db, Token(cid, attr, mask, g.maxBound))),
                             Token(cid, attr, mask, g.maxBound));
    case Some(t) => LoopReports(g, g, t.(attr := attr, mask := mask));
  }

  lemma LoopReports(g: Gate, g1: Gate, t: Token)
    requires START_TICKET_BOUND <= t.addr < U16 && (g1 == g || g1 == g.(db := AddToken(g.db, t)))
    ensures AddToDevices(g1, t, 1).1 <==> !Taken(g.db, t.addr, t.cid) || NoneActive(g, 1)
  {
    if Taken(g.db, t.addr, t.cid) {
      RefusedByAll(g1, t, 1);
      assert NoneActive(g1, 1) <==> NoneActive(g, 1);
    } else {
      AddToDevicesWrites(g1, t, 1);
    }
  }
}
