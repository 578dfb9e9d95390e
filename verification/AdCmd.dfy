/** Adding cards: address allocation and writing token records (src/ad_cmd.c). */
module AdCmd {
  import opened LibGate
  import opened GateState
  import opened DbLayer
  import opened AdTarget
  import opened CardBytes

  /** gp_token_rec_t: six bytes of card id in the device's order, attr, schedule mask. */
  function TokenRecord(t: Token, revert: bool): Rec {
    Int2BinBytes(t.cid, 6, revert) + [t.attr, t.mask]
  }

  /** The address `cmd_add_cid` writes to: the record's, cut to 16 bits, or the device's
      bound when that is below the first slot. */
  function TokenAddr(g: Gate, d: DevId, t: Token): Word {
    var addr := t.addr % U16;
    if addr < START_TICKET_BOUND then DevAt(g, d).boundToken else addr
  }

  /** `cmd_add_cid`, and whether it returns 1. */
  function AddCid(g: Gate, d: DevId, t: Token): (Gate, bool) {
    var addr := TokenAddr(g, d, t);
    if Taken(g.db, addr, t.cid) then (g, false)
    else
      var g1 := Queue(g, SetToken(Second, d, addr, TokenRecord(t, DevAt(g, d).revert)));
      if addr < DevAt(g, d).boundToken then (g1, true)
      else (RaiseBound(g1, d, (addr + TICKET_SIZE) % U16), true)
  }

  function RaiseBound(g: Gate, d: DevId, bound: Word): Gate {
    Queue(SetDev(g, d, DevAt(g, d).(boundToken := bound)).(maxBound := Max(g.maxBound, bound)),
          SetTokenBound(Second, d, bound))
  }

  lemma AddCidForm(g: Gate, d: DevId, t: Token)
    requires START_TICKET_BOUND <= t.addr < U16
    ensures Taken(g.db, t.addr, t.cid) ==> AddCid(g, d, t) == (g, false)
    ensures !Taken(g.db, t.addr, t.cid) ==>
              var g1 := Queue(g, SetToken(Second, d, t.addr, TokenRecord(t, DevAt(g, d).revert)));
              AddCid(g, d, t) == (if t.addr < DevAt(g, d).boundToken then g1
                                  else RaiseBound(g1, d, (t.addr + TICKET_SIZE) % U16), true)
  {
    assert TokenAddr(g, d, t) == t.addr;
  }

  /** The loop over active devices, from device `d` on; stops at the first refusal. */
  function AddToDevices(g: Gate, t: Token, d: nat): (Gate, bool)
    requires d >= 1
    decreases 256 - d
  {
    if d > g.maxDevN then (g, true)
    else if !DevAt(g, d).active then AddToDevices(g, t, d + 1)
    else
      var (g1, ok) := AddCid(g, d, t);
      if ok then AddToDevices(g1, t, d + 1) else (g1, false)
  }

  /** The record with the next free address filled in when the caller gave none. */
  function WithAddr(g: Gate, t: Token): Token {
    if t.addr < START_TICKET_BOUND then t.(addr := g.maxBound) else t
  }

  /** `cmd_add_cid_to_all`. A refused `db_add_token` is only logged. */
  function AddCidToAll(g: Gate, t: Token): (Gate, bool) {
    var t1 := WithAddr(g, t);
    AddToDevices(g.(db := AddToken(g.db, t1)), t1, 1)
  }

  /** `cmd_add_tocken_to_all`. A known card keeps its address; its new attributes go to the
      devices but not to the database. */
  function AddTokenToAll(g: Gate, cid: nat, attr: Byte, mask: Byte): (Gate, bool) {
    match TokenByCid(g.db, cid)
    case None =>
      var t := Token(cid, attr, mask, g.maxBound);
      AddToDevices(g.(db := AddToken(g.db, t)), t, 1)
    case Some(t) => AddToDevices(g, t.(attr := attr, mask := mask), 1)
  }

  /** The commands of `cmd_reload_dev`, for the order in which the cursor meets the cards. */
  function ReloadTokens(db: Db, d: DevId, revert: bool, order: seq<nat>): seq<Cmd>
    requires forall c :: c in order ==> c in db.token
  {
    if order == [] then []
    else
      var t := db.token[order[|order| - 1]];
      ReloadTokens(db, d, revert, order[..|order| - 1])
      + SetToken(First, d, t.addr % U16, TokenRecord(t, revert))
  }

  lemma ReloadSnoc(db: Db, d: DevId, revert: bool, order: seq<nat>)
    requires order != [] && (forall c :: c in order ==> c in db.token)
    requires db.token[order[|order| - 1]].addr < U16
    ensures var t := db.token[order[|order| - 1]];
            ReloadTokens(db, d, revert, order)
              == ReloadTokens(db, d, revert, order[..|order| - 1])
                 + SetToken(First, d, t.addr, TokenRecord(t, revert))
  {
    assert db.token[order[|order| - 1]].addr % U16 == db.token[order[|order| - 1]].addr;
  }

  function ReloadCmds(db: Db, d: DevId, revert: bool, order: seq<nat>): seq<Cmd>
    requires forall c :: c in order ==> c in db.token
  {
    [PrepLoad(First, d, true)] + ReloadTokens(db, d, revert, order) + [PrepLoad(First, d, false)]
  }

  function Reload(g: Gate, d: DevId, order: seq<nat>): Gate
    requires forall c :: c in order ==> c in g.db.token
  {
    Queue(g, ReloadCmds(g.db, d, DevAt(g, d).revert, order))
  }
}
