/** The token database (src/db_layer.c): records by card id and card ids by address. */
module DbLayer {
  import opened LibGate

  datatype Option<T> = None | Some(value: T)

  datatype Db = Db(token: map<nat, Token>, mapping: map<nat, nat>)

  /** `db_get_cid_by_a`; 0 when the address is not mapped. */
  function CidByAddr(db: Db, addr: nat): nat {
    if addr in db.mapping then db.mapping[addr] else 0
  }

  /** `db_get_token_by_c`. */
  function TokenByCid(db: Db, cid: nat): Option<Token> {
    if cid in db.token then Some(db.token[cid]) else None
  }

  /** Another card owns the address; `db_add_token` and `cmd_add_cid` then refuse. */
  predicate Taken(db: Db, addr: nat, cid: nat) {
    CidByAddr(db, addr) != 0 && CidByAddr(db, addr) != cid
  }

  function AddToken(db: Db, t: Token): Db {
    if Taken(db, t.addr, t.cid) then db
    else Db(db.token[t.cid := t], db.mapping[t.addr := t.cid])
  }

  /** The two maps agree. Card 0 is what an unmapped address reads as, so nothing is
      promised about a record of card 0. */
  ghost predicate Index(db: Db) {
    && (forall c :: c in db.token ==> db.token[c].cid == c)
    && (forall c :: c in db.token ==> db.token[c].addr in db.mapping)
    && (forall c :: c in db.token && c != 0 ==> db.mapping[db.token[c].addr] == c)
    && (forall a :: a in db.mapping ==> db.mapping[a] in db.token)
  }

  /** Nothing mapped before is forgotten or has changed hands. */
  ghost predicate Grows(db: Db, db': Db) {
    match db
    case Db(token, mapping) =>
      && (forall c :: c in token ==> c in db'.token)
      && forall a :: a in mapping ==> a in db'.mapping && (mapping[a] != 0 ==> db'.mapping[a] == mapping[a])
  }

  function AddTokens(db: Db, ts: seq<Token>): Db
    decreases ts
  {
    if ts == [] then db else AddTokens(AddToken(db, ts[0]), ts[1..])
  }

  lemma AddTokenKeepsIndex(db: Db, t: Token)
    requires Index(db)
    ensures Index(AddToken(db, t)) && Grows(db, AddToken(db, t))
    ensures CidByAddr(AddToken(db, t), t.addr) == if Taken(db, t.addr, t.cid) then CidByAddr(db, t.addr) else t.cid
  {
    AddTokenAgrees(db, t);
    AddTokenGrows(db, t);
  }

  lemma AddTokenGrows(db: Db, t: Token)
    ensures Grows(db, AddToken(db, t))
  {
  }

  lemma AddTokenAgrees(db: Db, t: Token)
    requires Index(db)
    ensures Index(AddToken(db, t))
  {
    var db' := AddToken(db, t);
    if !Taken(db, t.addr, t.cid) {
      forall c | c in db'.token
        ensures db'.token[c].cid == c && db'.token[c].addr in db'.mapping
        ensures c != 0 ==> db'.mapping[db'.token[c].addr] == c
      {
        assert c != t.cid ==> db'.token[c] == db.token[c];
      }
    }
  }

  lemma GrowsTrans(a: Db, b: Db, c: Db)
    requires Grows(a, b) && Grows(b, c)
    ensures Grows(a, c)
  {
  }

  /** After any run of `db_add_token` the maps agree and no address has changed hands. */
  lemma {:induction false} AddTokensKeepIndex(db: Db, ts: seq<Token>)
    requires Index(db)
    ensures Index(AddTokens(db, ts)) && Grows(db, AddTokens(db, ts))
    decreases ts
  {
    if ts != [] {
      AddTokenKeepsIndex(db, ts[0]);
      AddTokensKeepIndex(AddToken(db, ts[0]), ts[1..]);
      GrowsTrans(db, AddToken(db, ts[0]), AddTokens(db, ts));
    }
  }

  /** Hence the current records of two different cards never share an address. */
  lemma NoSharedAddress(db: Db, c: nat, d: nat)
    requires Index(db) && c in db.token && d in db.token && c != 0 && d != 0
    ensures db.token[c].addr == db.token[d].addr ==> c == d
  {
    assert db.mapping[db.token[c].addr] == c && db.mapping[db.token[d].addr] == d;
  }

  /** Over any run of adds a mapped address keeps its owner, if and only if the owner is not
      card 0 or no other card is added at that address. */
  lemma {:induction false} OwnerKept(db: Db, ts: seq<Token>, a: nat)
    requires a in db.mapping
    ensures a in AddTokens(db, ts).mapping
    ensures AddTokens(db, ts).mapping[a] == db.mapping[a]
            <==> db.mapping[a] != 0 || forall k :: 0 <= k < |ts| ==> ts[k].addr != a || ts[k].cid == 0
    decreases ts
  {
    if ts != [] {
      var db1 := AddToken(db, ts[0]);
      OwnerKept(db1, ts[1..], a);
      if db1.mapping[a] == db.mapping[a] {
        assert forall k :: 0 < k < |ts| ==> ts[k] == ts[1..][k - 1];
        assert forall k :: 0 <= k < |ts| - 1 ==> ts[1..][k] == ts[k + 1];
      } else {
        OwnedStays(db1, ts[1..], a);
      }
    }
  }

  lemma {:induction false} OwnedStays(db: Db, ts: seq<Token>, a: nat)
    requires a in db.mapping && db.mapping[a] != 0
    ensures a in AddTokens(db, ts).mapping && AddTokens(db, ts).mapping[a] == db.mapping[a]
    decreases ts
  {
    if ts != [] {
      OwnedStays(AddToken(db, ts[0]), ts[1..], a);
    }
  }

  /** So card 0 is the one exception: its record's address can be given to another card. */
  lemma CardZeroLosesItsAddress(a: nat)
    ensures var db := AddToken(AddToken(Db(map[], map[]), Token(0, 0, 0, a)), Token(7, 0, 0, a));
            && 0 in db.token && 7 in db.token && db.token[0].addr == db.token[7].addr == a
            && CidByAddr(db, a) == 7
  {
    var db := AddToken(Db(map[], map[]), Token(0, 0, 0, a));
    assert CidByAddr(db, a) == 0;
  }

  /** What `db_get_max_addr` returns: the greatest low word of a mapped address, and at
      least the slot before the first. */
  ghost predicate IsMaxAddr(db: Db, m: nat) {
    && m >= START_TICKET_BOUND - TICKET_SIZE
    && (forall a :: a in db.mapping ==> a % U16 <= m)
    && (m == START_TICKET_BOUND - TICKET_SIZE || exists a :: a in db.mapping && a % U16 == m)
  }

  /** The database handles and the cursor of `db_get_next_token`. The order in which the
      cursor visits the cards is left open. */
  class TokenDb {
    var token: map<nat, Token>
    var mapping: map<nat, nat>
    var unvisited: set<nat>

    function View(): Db
      reads this
    {
      Db(token, mapping)
    }

    constructor (db: Db)
      ensures View() == db
    {
      token, mapping, unvisited := db.token, db.mapping, {};
    }

    method DbAddToken(t: Token) returns (ok: bool)
      modifies this`token, this`mapping
      ensures View() == AddToken(old(View()), t)
      ensures ok == !Taken(old(View()), t.addr, t.cid)
    {
      var cid := CidByAddr(View(), t.addr);
      if cid != 0 && cid != t.cid {
        return false;
      }
      token := token[t.cid := t];
      mapping := mapping[t.addr := t.cid];
      ok := true;
    }

    method DbGetMaxAddr() returns (m: nat)
      ensures IsMaxAddr(View(), m)
    {
      m := START_TICKET_BOUND - TICKET_SIZE;
      var todo := mapping.Keys;
      while todo != {}
        invariant todo <= mapping.Keys && m >= START_TICKET_BOUND - TICKET_SIZE
        invariant forall a :: a in mapping && a !in todo ==> a % U16 <= m
        invariant m == START_TICKET_BOUND - TICKET_SIZE || exists a :: a in mapping && a % U16 == m
        decreases todo
      {
        var a :| a in todo;
        m := Max(m, a % U16);
        todo := todo - {a};
      }
    }

    /** `db_get_next_token`: each card once after a call with `restart`. `key` is the card
        the cursor stands on. */
    method DbGetNextToken(restart: bool) returns (t: Option<Token>, ghost key: nat)
      modifies this`unvisited
      ensures var left := (if restart then token.Keys else old(unvisited)) * token.Keys;
              if left == {} then t == None && unvisited == {}
              else key in left && t == Some(token[key]) && unvisited == left - {key}
    {
      if restart {
        unvisited := token.Keys;
      }
      unvisited := unvisited * token.Keys;
      key := 0;
      if unvisited == {} {
        return None, 0;
      }
      var c :| c in unvisited;
      unvisited := unvisited - {c};
      t, key := Some(token[c]), c;
    }
  }
}
