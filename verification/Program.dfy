/** The program itself: its globals as fields, its functions as methods that change them in
    place, each proved against the value-level function of the same name. */
module Program {
  import opened LibGate
  import opened Crc8
  import opened Memory
  import opened Stuffing
  import opened CardBytes
  import opened Frames
  import opened Receiver
  import opened GpQueue
  import opened DbLayer
  import opened GateState
  import opened AdTarget
  import opened AdCmd
  import opened CardPoll
  import opened LogRing
  import opened GpProcessor
  import opened GpLayer
  import opened Reads

  class Globals {
    // send_mess and gp_cfg
    var isExpected: bool
    var target: nat
    var bank: nat
    var handler: Handler
    var dev: DevId
    var polling: bool
    var sendLen: nat
    const sendBuf: array<Byte>
    var maxBound: Word
    var maxDevN: DevId
    var maxTimeouts: nat
    var idlePos: DevId
    var date: Rec
    // devices, the queues and the database
    const devices: array<Dev>
    const queue: CmdQueue
    const db: TokenDb
    // receiv_mess and receiv_buf_p
    const recvMem: array<Byte>
    var recvPos: Cursor
    var recvLen: int
    // every command written to the line
    ghost var wire: seq<Cmd>

    predicate Shaped() {
      devices.Length == 256 && sendBuf.Length == SEND_BUF_LENGTH && recvMem.Length == MEMORY
      && sendBuf != recvMem && sendBuf as object != devices && recvMem as object != devices
    }

    ghost function View(): Gate
      requires Shaped()
      reads this`isExpected, this`target, this`bank, this`handler, this`dev, this`polling, this`wire
      reads this`maxBound, this`maxDevN, this`maxTimeouts, this`idlePos, this`date, devices, queue, db
    {
      Gate(isExpected, target, bank, handler, dev, polling, devices[..], queue.View(), db.View(),
           maxBound, maxDevN, maxTimeouts, idlePos, date, wire)
    }

    ghost function Received(): RecvState
      requires Shaped()
      reads this`recvPos, this`recvLen, recvMem
    {
      RecvState(recvMem[..], recvPos, recvLen)
    }

    /** The reassembly invariant holds, and every waiting command fits the send buffer. */
    ghost predicate Ready()
      reads this`recvPos, this`recvLen, recvMem, queue
    {
      && Shaped() && Receiver.Valid(Received())
      && (forall z :: Waits(queue.View(), z) ==> Sendable(z))
    }

    /** `gp_init`: the device table and the allocator's seed. */
    constructor GpInit(store: TokenDb, now: Rec)
      ensures Ready() && db == store && db.View() == old(store.View())
      ensures Fresh(View()) && exists m: nat :: Seeded(View(), m)
      ensures View().idlePos == 0 && View().maxDevN == 7 && View().maxTimeouts == 6
    {
      isExpected, target, bank, handler, dev, polling := false, 0, 0, NoHandler, 0, false;
      sendLen, maxBound, maxDevN, maxTimeouts, idlePos, date := 0, START_TICKET_BOUND, 7, 6, 0, now;
      recvPos, recvLen, wire := Null, 0, [];
      db := store;
      devices := new Dev[256](d requires 0 <= d < 256 => FreshDev(d));
      sendBuf := new Byte[SEND_BUF_LENGTH](_ => 0);
      recvMem := new Byte[MEMORY](_ => 0);
      queue := new CmdQueue();
      new;
      var m := db.DbGetMaxAddr();
      maxBound := (m + TICKET_SIZE) % U16;
      assert Seeded(View(), m);
    }

    // ----- gp_send and the queues -----

    method GpSend(z: Cmd)
      requires Shaped() && Sendable(z)
      modifies this`isExpected, this`target, this`bank, this`handler, this`dev, this`polling, this`wire,
               this`sendLen, sendBuf
      ensures View() == Send(old(View()), z)
      ensures sendLen == |RequestFrame(z)| && sendBuf[..sendLen] == RequestFrame(z)
    {
      NoteSent(z);
      sendLen := BuildFrame(z);
    }

    /** The part of `gp_send` that says what is outstanding. */
    method NoteSent(z: Cmd)
      requires Shaped()
      modifies this`isExpected, this`target, this`bank, this`handler, this`dev, this`polling, this`wire
      ensures View() == Send(old(View()), z)
    {
      InheritHandler(z);
      NoteOutstanding(z);
      wire := wire + [z];
    }

    method NoteOutstanding(z: Cmd)
      requires Shaped()
      modifies this`isExpected, this`target, this`bank, this`dev, this`polling
      ensures View() == old(View()).(isExpected := true, target := z.target, bank := z.bank, dev := z.dst,
                                     polling := z.polling)
    {
      polling := z.polling;
      isExpected := true;
      bank := z.bank;
      target := z.target;
      dev := z.dst;
    }

    /** Only a command sent at once inherits the handler. */
    method InheritHandler(z: Cmd)
      modifies this`handler
      ensures handler == if z.handler == NoHandler && z.queue == Short then old(handler) else z.handler
    {
      if z.handler != NoHandler {
        handler := z.handler;
      } else if z.queue != Short {
        handler := NoHandler;
      }
    }

    /** dst, cmd_n and `cmd_buff` lie together; the checksum goes behind the used bytes. */
    method BuildBody(z: Cmd) returns (body: array<Byte>)
      ensures fresh(body) && body[..] == RequestBody(z)
    {
      var n := |z.data|;
      body := new Byte[n + 3];
      Memcpy(body, 0, [z.dst, z.cmdN] + z.data);
      assert body[1..n + 2] == [z.cmdN] + z.data;
      var crc := Crc8Xor(body, 1, n + 1);
      body[n + 2] := crc;
    }

    /** The stuffed body between the flags. */
    method BuildFrame(z: Cmd) returns (len: nat)
      requires Shaped() && Sendable(z)
      modifies sendBuf
      ensures len == |RequestFrame(z)| <= sendBuf.Length && sendBuf[..len] == RequestFrame(z)
    {
      var body := BuildBody(z);
      assert body[0..body.Length] == RequestBody(z);
      sendBuf[0], sendBuf[1] := GP_INIT, GP_CTRL;
      ghost var flagged := sendBuf[..];
      var c := MemcpyEsc(sendBuf, 2, body, 0, body.Length);
      len := c + 3;
      sendBuf[len - 1] := GP_END;
      FrameInBuffer(flagged, sendBuf[..], Esc(RequestBody(z)));
    }

    lemma FrameInBuffer(flagged: seq<Byte>, buf: seq<Byte>, e: seq<Byte>)
      requires |e| + 3 <= |flagged| && flagged[0] == GP_INIT && flagged[1] == GP_CTRL
      requires buf == Write(flagged, 2, e + [0])[|e| + 2 := GP_END]
      ensures buf[..|e| + 3] == [GP_INIT, GP_CTRL] + e + [GP_END]
    {
    }

    method GpInCmd(z: Cmd)
      requires Ready() && Sendable(z)
      modifies queue
      ensures Ready() && View() == Queue(old(View()), [z])
    {
      queue.GpInCmd(z);
      assert forall y :: Waits(queue.View(), y) ==> Waits(old(queue.View()), y) || y == z;
      InCmdsOne(old(queue.View()), z);
    }

    method GpPutCmd() returns (sent: bool)
      requires Ready()
      modifies this`isExpected, this`target, this`bank, this`handler, this`dev, this`polling, this`wire,
               this`sendLen, sendBuf, queue
      ensures Ready() && View() == PutCmd(old(View())) && sent == !Empty(old(View()).q)
    {
      var found, z := queue.Unlink();
      sent := found;
      if found {
        assert Waits(old(queue.View()), z);
        assert forall y :: Waits(queue.View(), y) ==> Waits(old(queue.View()), y);
        GpSend(z);
      }
    }

    /** A command for each bank: the struct is queued, changed in place and queued again. */
    method GpInPair(z: Cmd)
      requires Ready() && Sendable(z) && z.data != []
      modifies queue
      ensures Ready() && View() == Queue(old(View()), BankPair(z))
    {
      ghost var q := queue.View();
      var cmd := z;
      GpInCmd(cmd);
      cmd := cmd.(bank := 1, data := cmd.data[0 := 1]);
      GpInCmd(cmd);
      InCmdsConcat(q, [z], [cmd]);
      assert BankPair(z) == [z] + [cmd];
    }

    /** `devices[d].field = ...`, for the fields that differ in `v`. */
    method Store(d: DevId, v: Dev)
      requires Shaped()
      modifies devices
      ensures View() == SetDev(old(View()), d, v)
    {
      devices[d] := v;
      assert devices[..] == old(devices[..])[d := v];
    }

    // ----- ad_target.c and ad_cmd.c -----

    method AdSetToken(q: Class, d: DevId, addr: Word, record: Rec)
      requires Ready()
      modifies queue
      ensures Ready() && View() == Queue(old(View()), SetToken(q, d, addr, record))
    {
      GpInPair(Cmd(TARGET_SET_TOKEN, NoHandler, 0, false, q, d, CMD_SET,
                   [0x00, 0xA0, 8] + ToBe16(addr) + record));
    }

    method AdSetTokenBound(q: Class, d: DevId, addr: Word)
      requires Ready()
      modifies queue
      ensures Ready() && View() == Queue(old(View()), SetTokenBound(q, d, addr))
    {
      GpInPair(Cmd(TARGET_SET_TOKEN_BOUND, NoHandler, 0, false, q, d, CMD_SET,
                   [0x00, 0xA0, 2, 0x00, 0xBE] + ToBe16(addr)));
    }

    method CmdAddCid(d: DevId, t: Token) returns (ok: bool)
      requires Ready()
      modifies this`maxBound, devices, queue
      ensures Ready() && (View(), ok) == AddCid(old(View()), d, t)
    {
      var addr: Word := t.addr % U16;
      if addr < START_TICKET_BOUND {
        addr := devices[d].boundToken;
      }
      var cid2 := CidByAddr(Db(db.token, db.mapping), addr);
      if cid2 != 0 && cid2 != t.cid {
        return false;
      }
      AdSetToken(Second, d, addr, TokenRecord(t, devices[d].revert));
      if addr >= devices[d].boundToken {
        PassBound(d, (addr + TICKET_SIZE) % U16);
      }
      ok := true;
    }

    /** Moves the bounds of the device and of the program, and tells the device. */
    method PassBound(d: DevId, bound: Word)
      requires Ready()
      modifies this`maxBound, devices, queue
      ensures Ready() && View() == RaiseBound(old(View()), d, bound)
    {
      Store(d, devices[d].(boundToken := bound));
      maxBound := Max(maxBound, devices[d].boundToken);
      AdSetTokenBound(Second, d, devices[d].boundToken);
    }

    /** The loop both `cmd_add_cid_to_all` and `cmd_add_tocken_to_all` end with. */
    method AddToActiveDevices(t: Token) returns (ok: bool)
      requires Ready()
      modifies this`maxBound, devices, queue
      ensures Ready() && (View(), ok) == AddToDevices(old(View()), t, 1)
    {
      var d: nat := 1;
      while d <= maxDevN
        invariant d >= 1 && Ready() && maxDevN == old(maxDevN)
        invariant AddToDevices(old(View()), t, 1) == AddToDevices(View(), t, d)
        decreases 256 - d
      {
        if devices[d].active {
          ok := CmdAddCid(d, t);
          if !ok {
            return false;
          }
        }
        d := d + 1;
      }
      ok := true;
    }

    method CmdAddCidToAll(t: Token) returns (ok: bool)
      requires Ready()
      modifies this`maxBound, devices, queue, db
      ensures Ready() && (View(), ok) == AddCidToAll(old(View()), t)
    {
      var t1 := t;
      if t1.addr < START_TICKET_BOUND {
        t1 := t1.(addr := maxBound);
      }
      var stored := db.DbAddToken(t1);
      ok := AddToActiveDevices(t1);
    }

    method CmdAddTockenToAll(cid: nat, attr: Byte, mask: Byte) returns (ok: bool)
      requires Ready()
      modifies this`maxBound, devices, queue, db
      ensures Ready() && (View(), ok) == AddTokenToAll(old(View()), cid, attr, mask)
    {
      var t: Token;
      if cid in db.token {
        t := db.token[cid].(attr := attr, mask := mask);
      } else {
        t := Token(cid, attr, mask, maxBound);
        var stored := db.DbAddToken(t);
      }
      ok := AddToActiveDevices(t);
    }

    /** Returns the order in which the cursor met the cards: each exactly once. */
    method CmdReloadDev(d: DevId) returns (ghost order: seq<nat>)
      requires Ready()
      modifies queue, db`unvisited
      ensures Ready() && (forall c :: c in order <==> c in db.token)
      ensures forall i, j :: 0 <= i < j < |order| ==> order[i] != order[j]
      ensures View() == Reload(old(View()), d, order)
    {
      ghost var q, data, revert := queue.View(), db.View(), devices[d].revert;
      GpInCmd(PrepLoad(First, d, true));
      order := QueueTokens(d);
      GpInCmd(PrepLoad(First, d, false));
      ghost var tokens := ReloadTokens(data, d, revert, order);
      InCmdsConcat(q, [PrepLoad(First, d, true)], tokens);
      InCmdsConcat(q, [PrepLoad(First, d, true)] + tokens, [PrepLoad(First, d, false)]);
    }

    /** The loop over the cards. */
    method QueueTokens(d: DevId) returns (ghost order: seq<nat>)
      requires Ready()
      modifies queue, db`unvisited
      ensures Ready() && (forall c :: c in order <==> c in db.token)
      ensures forall i, j :: 0 <= i < j < |order| ==> order[i] != order[j]
      ensures View() == Queue(old(View()), ReloadTokens(db.View(), d, devices[d].revert, order))
    {
      ghost var q, data := queue.View(), db.View();
      var revert := devices[d].revert;
      order := [];
      ghost var c;
      var t;
      t, c := db.DbGetNextToken(true);
      while t.Some?
        invariant Ready() && Cursor(data, order, db.unvisited, t, c)
        invariant queue.View() == InCmds(q, ReloadTokens(data, d, revert, order))
        decreases db.unvisited, t.Some?
      {
        ReloadOneMore(q, data, d, revert, order, c);
        AdSetToken(First, d, t.value.addr % U16, TokenRecord(t.value, revert));
        ghost var left, t0, c0 := db.unvisited, t, c;
        t, c := db.DbGetNextToken(false);
        CursorStep(data, order, left, t0, c0, db.unvisited, t, c);
        order := order + [c0];
      }
    }

    /** Where a walk through the cards stands: behind it `order`, before it the unvisited
        cards, and the current one at `c`. */
    static ghost predicate Cursor(data: Db, order: seq<nat>, unvisited: set<nat>, t: Option<Token>, c: nat) {
      && (forall e :: e in order ==> e in data.token && e !in unvisited)
      && (forall i, j :: 0 <= i < j < |order| ==> order[i] != order[j])
      && unvisited <= data.token.Keys
      && (if t.Some? then c in data.token && t.value == data.token[c] && c !in unvisited && c !in order
          else unvisited == {})
      && (forall e :: e in data.token ==> e in order || e in unvisited || (t.Some? && e == c))
    }

    static lemma CursorStep(data: Db, order: seq<nat>, left: set<nat>, t: Option<Token>, c: nat,
                            left': set<nat>, t': Option<Token>, c': nat)
      requires Cursor(data, order, left, t, c) && t.Some?
      requires if left * data.token.Keys == {} then t' == None && left' == {}
               else c' in left * data.token.Keys && t' == Some(data.token[c']) && left' == left * data.token.Keys - {c'}
      ensures Cursor(data, order + [c], left', t', c')
      ensures left' < left || (left' == left && t'.None?)
    {
      assert left * data.token.Keys == left;
      assert t'.Some? ==> c' in left && c' !in left';
    }

    static lemma ReloadOneMore(q: Queues, data: Db, d: DevId, revert: bool, order: seq<nat>, c: nat)
      requires c in data.token && forall e :: e in order ==> e in data.token
      ensures var t := data.token[c];
              InCmds(InCmds(q, ReloadTokens(data, d, revert, order)),
                     SetToken(First, d, t.addr % U16, TokenRecord(t, revert)))
              == InCmds(q, ReloadTokens(data, d, revert, order + [c]))
    {
      var t := data.token[c];
      InCmdsConcat(q, ReloadTokens(data, d, revert, order), SetToken(First, d, t.addr % U16, TokenRecord(t, revert)));
      assert (order + [c])[..|order|] == order;
    }

    // ----- gp_processor.c -----

    method CbLogRead(r: Reply) returns (ok: bool)
      requires Ready()
      modifies this`isExpected, this`target, this`bank, this`handler, this`dev, this`polling, this`wire,
               this`sendLen, sendBuf, devices
      ensures Ready() && (View(), ok) == GpProcessor.CbLogRead(old(View()), r)
    {
      if target == TARGET_GET_BUFF_ADDR {
        ok := OnLogPointers(r);
      } else if target == TARGET_GET_BUFF_DATA {
        OnLogBlock(r);
        ok := true;
      } else {
        ok := target == TARGET_SET_BUFF_ADDR_DOWN;
      }
    }

    method OnLogPointers(r: Reply) returns (ok: bool)
      requires Ready()
      modifies this`isExpected, this`target, this`bank, this`handler, this`dev, this`polling, this`wire,
               this`sendLen, sendBuf, devices
      ensures Ready() && (View(), ok) == LogPointers(old(View()), r)
    {
      var boundUp, boundDown := FromBe16(r.buff, 0), FromBe16(r.buff, 2);
      if boundDown > MAX_LOG_BOUND || boundUp > MAX_LOG_BOUND {
        return false;
      }
      var l: int := boundUp - boundDown;
      if l < 0 {
        l := MAX_LOG_BOUND - boundDown;
      }
      l := Min(l, EV_BLOCK_SIZE * EVENT_SIZE);
      Store(r.src, devices[r.src].(boundDown := boundDown, boundUp := boundUp));
      ok := l != 0;
      if ok {
        GpSend(GetBuffData(Short, r.src, boundDown, l));
      }
    }

    method OnLogBlock(r: Reply)
      requires Ready()
      modifies this`isExpected, this`target, this`bank, this`handler, this`dev, this`polling, this`wire,
               this`sendLen, sendBuf, devices
      ensures Ready() && View() == LogBlock(old(View()), r)
    {
      var bound := RunEvents(r);
      if bound >= MAX_LOG_BOUND {
        bound := 0;
      }
      GpSend(SetBuffAddrDown(Short, r.src, bound));
    }

    /** The event loop over a block: `bound` walks the device's addresses, `c` counts the
        repeats, and every record whose first three bytes differ from the last kept one is
        reported. */
    method RunEvents(r: Reply) returns (bound: nat)
      requires Ready()
      modifies devices
      ensures bound == Min(old(devices[r.src]).boundDown, MAX_LOG_BOUND) + EVENT_SIZE * RecordCount(r)
      ensures View() == SetDev(old(View()), r.src,
                AfterRecords(old(devices[r.src]), db.View(), Records(r.buff, RecordCount(r))))
    {
      var d, n := r.src, RecordCount(r);
      ghost var dev0, rs, data, table := devices[d], Records(r.buff, n), db.View(), devices[..];
      bound := Min(devices[d].boundDown, MAX_LOG_BOUND);
      var i, c := 0, 0;
      AfterNoRecords(dev0, data);
      assert rs[..0] == [];
      while i < n
        invariant 0 <= i <= n && bound == Min(dev0.boundDown, MAX_LOG_BOUND) + EVENT_SIZE * i
        invariant c == Repeats(dev0.lastRec, rs[..i])
        invariant devices[..] == table[d := AfterRecords(dev0, data, rs[..i])]
      {
        var t: Rec := r.buff[EVENT_SIZE * i..EVENT_SIZE * i + EVENT_SIZE];
        assert rs[..i + 1] == rs[..i] + [t];
        AfterOneMore(dev0, data, rs[..i], t);
        ReportedSnoc(dev0.lastRec, rs[..i], t, 0);
        var v := devices[d];
        assert v == AfterRecords(dev0, data, rs[..i]);
        if t[..3] != v.lastRec[..3] {
          var addr := FromBe16(t, 1);
          v := v.(lastRec := t, events := v.events + [Event(t, addr, CidByAddr(Db(db.token, db.mapping), addr), c)]);
        } else {
          c := c + 1;
        }
        v := v.(stream := v.stream + [t]);
        assert v == AfterRecords(dev0, data, rs[..i + 1]);
        devices[d] := v;
        i, bound := i + 1, bound + EVENT_SIZE;
      }
      assert rs[..n] == rs;
    }

    lemma AfterNoRecords(v: Dev, data: Db)
      ensures AfterRecords(v, data, []) == v
    {
      assert v.stream + [] == v.stream && v.events + ToEvents(data, []) == v.events;
    }

    method CbGetPollResult(r: Reply, cmdN: Byte) returns (ok: bool)
      requires Ready()
      modifies this`isExpected, this`target, this`bank, this`handler, this`dev, this`polling, this`wire,
               this`sendLen, sendBuf, this`maxBound, devices, queue, db
      ensures Ready() && (View(), ok) == GpProcessor.CbGetPollResult(old(View()), r, cmdN)
    {
      var d := r.src;
      ok := false;
      if target == TARGET_GET_CID && cmdN == CMD_GET {
        var a := Bin2Int(r.buff, if r.len < 0 then 8 else r.len, devices[d].revert);
        Store(d, SeeCid(devices[d], a));
        GpSend(GetRegs(Short, d));
        ok := true;
      } else if target == TARGET_GET_REGS && cmdN == CMD_REGS {
        var ev := r.buff[20];
        if Changed(devices[d], ev) && IsNewCard(ev) {
          OnNewCard(d, ev);
        }
        Store(d, SeeRegs(devices[d], ev));
        ok := true;
      }
    }

    method OnNewCard(d: DevId, ev: Byte)
      requires Ready()
      modifies this`maxBound, devices, queue, db
      ensures Ready() && View() == AdmitCard(old(View()), d, ev)
    {
      var cid := devices[d].lastCid;
      if cid in db.token {
        var t := db.token[cid];
        GpInCmd(TurnOn(Second, d, ev % 2));
        var added := CmdAddCid(d, t);
        if !added {
          var all := CmdAddCidToAll(t.(addr := 0));
        }
      } else {
        var all := CmdAddCidToAll(Token(cid, 0, 0xFF, 0));
      }
    }

    method ProcessPortInput(r: Reply, cmdN: Byte) returns (ok: bool)
      requires Ready()
      modifies this`isExpected, this`target, this`bank, this`handler, this`dev, this`polling, this`wire,
               this`sendLen, sendBuf, this`maxBound, devices, queue, db
      ensures Ready() && (View(), ok) == GpProcessor.ProcessPortInput(old(View()), r, cmdN)
    {
      match handler
      case LogHandler => ok := CbLogRead(r);
      case PollHandler => ok := CbGetPollResult(r, cmdN);
      case NoHandler =>
        if cmdN == CMD_INFO {
          Store(r.src, NoteInfo(devices[r.src], r.buff));
        } else if cmdN == CMD_GET && target == TARGET_GET_TOKEN_BOUND {
          Store(r.src, devices[r.src].(boundToken := FromBe16(r.buff, 0)));
        }
        ok := false;
    }

    // ----- gp_layer.c -----

    method GpSendIdle() returns (polled: bool)
      requires Ready()
      modifies this`isExpected, this`target, this`bank, this`handler, this`dev, this`polling, this`wire,
               this`sendLen, sendBuf, this`idlePos, devices
      ensures Ready() && View() == SendIdle(old(View()))
      ensures polled == IdleScan(old(View()).devices, old(idlePos), old(maxDevN), old(maxTimeouts)).2
    {
      ghost var g, all := View(), IdleScan(devices[..], idlePos, maxDevN, maxTimeouts);
      var pos;
      pos, polled := NextToPoll();
      idlePos := pos;
      assert View() == g.(devices := all.0, idlePos := all.1);
      if polled {
        GpSend(PollCid(pos));
      }
    }

    /** The loop of `gp_send_idle`: the next device within the limit, if any. */
    method NextToPoll() returns (pos: DevId, found: bool)
      requires devices.Length == 256
      modifies devices
      ensures (devices[..], pos, found) == IdleScan(old(devices[..]), idlePos, maxDevN, maxTimeouts)
    {
      var p: nat := idlePos;
      found := false;
      ghost var all := IdleScan(devices[..], idlePos, maxDevN, maxTimeouts);
      while !found
        invariant p < 256
        invariant if found then all == (devices[..], p, true)
                  else all == IdleScan(devices[..], p, maxDevN, maxTimeouts)
        modifies devices
        decreases 256 - p, !found
      {
        p := p + 1;
        if p > maxDevN {
          return 0, false;
        }
        if devices[p].timeouts > maxTimeouts {
          ghost var table := devices[..];
          devices[p] := devices[p].(active := false);
          assert devices[..] == table[p := table[p].(active := false)];
        } else {
          found := true;
        }
      }
      pos := p;
    }

    /** A timer event; `delta` milliseconds have passed since the last send, and the
        program's timeout is `timeout`. */
    method GpReceivTimer(delta: nat, timeout: nat)
      requires Ready()
      modifies this`isExpected, this`target, this`bank, this`handler, this`dev, this`polling, this`wire,
               this`sendLen, sendBuf, this`idlePos, devices, queue
      ensures Ready() && View() == Timer(old(View()), delta >= timeout)
    {
      if delta >= timeout {
        if isExpected {
          isExpected := false;
          Store(dev, devices[dev].(timeouts := devices[dev].timeouts + 1));
        }
        assert View() == Expire(old(View()));
        var sent := GpPutCmd();
        if !sent {
          var polled := GpSendIdle();
        }
      }
    }

    method GpDevInit(d: DevId)
      requires Ready()
      modifies queue
      ensures Ready() && View() == Queue(old(View()), DevInit(d, maxBound, date))
    {
      GpInCmds(DevInit(d, maxBound, date));
    }

    method GpInCmds(zs: seq<Cmd>)
      requires Ready() && forall i :: 0 <= i < |zs| ==> Sendable(zs[i])
      modifies queue
      ensures Ready() && View() == Queue(old(View()), zs)
    {
      ghost var q := queue.View();
      var i := 0;
      while i < |zs|
        invariant 0 <= i <= |zs| && Ready() && queue.View() == InCmds(q, zs[..i])
      {
        InCmdsNext(q, zs, i);
        GpInCmd(zs[i]);
        i := i + 1;
      }
      assert zs[..i] == zs;
    }

    static lemma InCmdsNext(q: Queues, zs: seq<Cmd>, i: nat)
      requires i < |zs|
      ensures InCmds(InCmds(q, zs[..i]), [zs[i]]) == InCmds(q, zs[..i + 1])
    {
      assert zs[..i + 1] == zs[..i] + [zs[i]];
      InCmdsConcat(q, zs[..i], [zs[i]]);
    }

    /** What a read does before it looks at the bytes. */
    method NoteRead()
      requires Ready()
      modifies this`isExpected, devices, queue
      ensures Ready() && View() == ReadStart(old(View()))
    {
      var v := devices[dev];
      isExpected := false;
      Store(dev, v.(active := true, timeouts := 0, inited := true));
      if !v.inited {
        GpDevInit(dev);
      }
    }

    /** A read event: `chunk` is what the port gave. */
    method GpReceivRead(chunk: seq<Byte>)
      requires Ready() && Filled(Received()) + |chunk| < READ_BUF_LENGTH
      modifies this, sendBuf, recvMem, devices, queue, db
      ensures Ready() && (View(), Received()) == OnRead(old(View()), old(Received()), chunk)
    {
      NoteRead();
      if chunk == [] {
        EmptyRead();
      } else {
        ChunkRead(chunk);
      }
    }

    /** The port gave nothing. */
    method EmptyRead()
      requires Ready()
      modifies this`isExpected, this`target, this`bank, this`handler, this`dev, this`polling, this`wire,
               this`sendLen, this`recvPos, this`recvLen, sendBuf
      ensures Ready() && View() == Send(old(View()), SoftReset(Short, old(dev)))
      ensures Received() == Opened(old(Received()))
    {
      recvLen := if recvPos.At? then recvLen else 0;
      recvPos := At(recvLen);
      GpSend(SoftReset(Short, dev));
    }

    method ChunkRead(chunk: seq<Byte>)
      requires Ready() && 0 < |chunk| && Filled(Received()) + |chunk| < READ_BUF_LENGTH
      modifies this, sendBuf, recvMem, devices, queue, db
      ensures Ready()
      ensures match Gather(old(Received()), chunk)
              case BadBegin(st) => Received() == st && View() == old(View())
              case Partial(st) => Received() == st && View() == old(View())
              case Whole(mem, end) =>
                && |mem| == MEMORY && end < READ_BUF_LENGTH - 1
                && Received() == RecvState(DecodeFrame(mem, end).0, Null, Filled(old(Received())))
                && View() == OnFrame(old(View()), DecodeFrame(mem, end), Filled(old(Received())))
    {
      var whole, end := Collect(chunk);
      if whole {
        TakeFrame(end);
      }
    }

    /** Adds a read to the buffer; `end` is where the END of a whole frame stands. */
    method Collect(chunk: seq<Byte>) returns (whole: bool, end: nat)
      requires Shaped() && Receiver.Valid(Received())
      requires 0 < |chunk| && Filled(Received()) + |chunk| < READ_BUF_LENGTH
      modifies this`recvPos, this`recvLen, recvMem
      ensures Receiver.Valid(Received())
      ensures match Gather(old(Received()), chunk)
              case BadBegin(st) => !whole && Received() == st
              case Partial(st) => !whole && Received() == st
              case Whole(mem, e) =>
                && whole && end == e < READ_BUF_LENGTH - 1
                && Received() == RecvState(mem, Null, Filled(old(Received())))
    {
      GatherKeepsValid(Received(), chunk);
      whole, end := false, 0;
      var at := if recvPos.At? then recvPos.i else 0;
      Memcpy(recvMem, at, chunk + [0]);
      if recvMem[0] != GP_INIT {
        recvPos, recvLen := At(at), at;
        return;
      }
      var k := FindEndIn(chunk);
      if k == |chunk| {
        recvPos, recvLen := At(at + |chunk|), at + |chunk|;
        return;
      }
      recvPos, recvLen := Null, at;
      whole, end := true, at + k;
    }

    /** `memchr` for END. */
    method FindEndIn(chunk: seq<Byte>) returns (k: nat)
      ensures k == FindEnd(chunk)
    {
      k := 0;
      while k < |chunk| && chunk[k] != GP_END
        invariant k <= |chunk| && GP_END !in chunk[..k]
      {
        assert chunk[..k + 1] == chunk[..k] + [chunk[k]];
        k := k + 1;
      }
      FirstEnd(chunk, k);
    }

    lemma FirstEnd(s: seq<Byte>, k: nat)
      requires k <= |s| && GP_END !in s[..k] && (k < |s| ==> s[k] == GP_END)
      ensures FindEnd(s) == k
    {
      FindEndConcat(s[..k], s[k..]);
      assert s == s[..k] + s[k..];
    }

    /** Decodes the frame whose END stands at `end` in place and checks it. */
    method DecodeInPlace(end: nat) returns (good: bool, l: int)
      requires Shaped() && end < READ_BUF_LENGTH - 1
      modifies recvMem
      ensures (recvMem[..], if good then Good(l) else BadCrc) == DecodeFrame(old(recvMem[..]), end)
    {
      ScanFits(recvMem[..], 3, Max(end - 3, 0));
      l := MemcpyUnesc(recvMem, 3, recvMem, 3, end - 3);
      var crc := Crc8Xor(recvMem, 3, l);
      assert recvMem[3..3 + Max(l, 1)] == recvMem[..][3..3 + Max(l, 1)];
      good := crc == 0;
    }

    method TakeFrame(end: nat)
      requires Ready() && end < READ_BUF_LENGTH - 1 && recvPos == Null
      modifies this`isExpected, this`target, this`bank, this`handler, this`dev, this`polling, this`wire,
               this`sendLen, this`maxBound, sendBuf, recvMem, devices, queue, db
      ensures Ready() && View() == OnFrame(old(View()), DecodeFrame(old(recvMem[..]), end), recvLen)
      ensures Received() == RecvState(DecodeFrame(old(recvMem[..]), end).0, Null, old(recvLen))
    {
      var good, l := DecodeInPlace(end);
      if good {
        Dispatched(ReplyAt(recvMem[..], l, recvLen));
      }
    }

    /** The end of `gp_receiv`: the source check, ACK and data replies, and the next
        command unless a handler has sent one. */
    method Dispatched(r: Reply)
      requires Ready()
      modifies this`isExpected, this`target, this`bank, this`handler, this`dev, this`polling, this`wire,
               this`sendLen, this`maxBound, sendBuf, devices, queue, db
      ensures Ready() && View() == Dispatch(old(View()), r)
    {
      if r.src != dev {
        return;
      }
      if r.cmdN == GP_REPLY {
        if r.buff[0] == GP_REPLY_ACK {
          var ignored := ProcessPortInput(r, r.buff[1]);
        }
      } else {
        var done := ProcessPortInput(r, r.cmdN);
        if done {
          return;
        }
      }
      var sent := GpPutCmd();
    }

    method GpGetDevLogs()
      requires Ready()
      modifies queue
      ensures Ready() && View() == LogTick(old(View()), 1)
    {
      var d: nat := 1;
      while d <= maxDevN
        invariant d >= 1 && Ready() && LogTick(old(View()), 1) == LogTick(View(), d)
        decreases 256 - d
      {
        if devices[d].active {
          GpInCmd(GetBuffAddr(Second, d, LogHandler));
        }
        d := d + 1;
      }
    }

    method GpAllDevEnable()
      requires Ready()
      modifies devices
      ensures Ready() && View() == EnableAll(old(View()))
    {
      ghost var table := devices[..];
      var d := 1;
      while d <= 255
        invariant 1 <= d <= 256
        invariant devices[0] == table[0]
        invariant forall k :: 1 <= k < d ==> devices[k] == table[k].(timeouts := 0)
        invariant forall k :: d <= k < 256 ==> devices[k] == table[k]
      {
        devices[d] := devices[d].(timeouts := 0);
        d := d + 1;
      }
      assert devices[..] == EnableAll(old(View())).devices;
    }
  }
}
