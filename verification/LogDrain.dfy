/** The log-drain protocol over every run of the whole system: `down` only ever passes
    records that have run through the program's event loop. */
module LogDrain {
  import opened LibGate
  import opened GateState
  import opened AdTarget
  import opened LogRing
  import opened GpProcessor
  import opened GpLayer
  import opened Housekeeping
  import opened LineSystem

  // ----- what has been seen -----

  /** One past the highest record number seen. */
  function Reach(seen: seq<nat>, first: nat): nat {
    if seen == [] then first else Max(Reach(seen[..|seen| - 1], first), seen[|seen| - 1] + 1)
  }

  /** No record is seen before every earlier one has been. */
  predicate NoSkip(seen: seq<nat>, first: nat) {
    seen == [] ||
    (NoSkip(seen[..|seen| - 1], first) && first <= seen[|seen| - 1] <= Reach(seen[..|seen| - 1], first))
  }

  lemma SeenSnoc(seen: seq<nat>, first: nat, x: nat)
    requires NoSkip(seen, first) && first <= x <= Reach(seen, first)
    ensures NoSkip(seen + [x], first)
    ensures Reach(seen + [x], first) == Max(Reach(seen, first), x + 1)
  {
    assert (seen + [x])[..|seen|] == seen;
  }

  lemma RangeSnoc(seen: seq<nat>, a: nat, n: nat)
    requires n > 0
    ensures seen + Range(a, n) == seen + Range(a, n - 1) + [a + n - 1]
  {
  }

  lemma {:induction false} SeenRange(seen: seq<nat>, first: nat, a: nat, n: nat)
    requires NoSkip(seen, first) && first <= a <= Reach(seen, first)
    ensures NoSkip(seen + Range(a, n), first)
    ensures Reach(seen + Range(a, n), first) == if n == 0 then Reach(seen, first) else Max(Reach(seen, first), a + n)
    decreases n
  {
    if n == 0 {
      assert seen + Range(a, n) == seen;
    } else {
      SeenRange(seen, first, a, n - 1);
      SeenSnoc(seen + Range(a, n - 1), first, a + n - 1);
      RangeSnoc(seen, a, n);
    }
  }

  /** Hence everything below the reach has been seen. */
  lemma {:induction false} NoSkipCovers(seen: seq<nat>, first: nat, i: nat)
    requires NoSkip(seen, first) && first <= i < Reach(seen, first)
    ensures i in seen
    decreases |seen|
  {
    if i != seen[|seen| - 1] {
      NoSkipCovers(seen[..|seen| - 1], first, i);
    }
  }

  // ----- the invariant -----

  /** One device's log against what the program has run through its loop for it. */
  ghost predicate SeenOk(l: Log, stream: seq<Rec>) {
    match l
    case Log(_, _, _, all, first, downNo, seen) =>
      && |stream| == |seen|
      && (forall k :: 0 <= k < |seen| ==> seen[k] < |all| && stream[k] == all[seen[k]])
      && NoSkip(seen, first)
      && downNo <= Reach(seen, first) <= |all|
  }

  /** A block request: whole records from the device's `down` on, inside the ring, all
      logged, with `bound_down` holding that `down`. */
  ghost predicate BlockAsked(l: Log, dev: Dev, z: Cmd) {
    |z.data| == 5 &&
    var n := z.data[2] / EVENT_SIZE;
    && 1 <= n <= EV_BLOCK_SIZE && l.downNo + n <= |l.all| && l.downNo % SLOTS + n <= SLOTS
    && dev.boundDown == Phys(l.downNo)
    && z == GetBuffData(Short, z.dst, Phys(l.downNo), EVENT_SIZE * n)
  }

  /** The last `n` records seen are those from the device's `down` on. */
  ghost predicate JustRun(l: Log, n: nat) {
    n <= |l.seen| && l.seen[|l.seen| - n..] == Range(l.downNo, n)
  }

  /** A pointer write: to the record after the block that has just been run. */
  ghost predicate DownAsked(l: Log, z: Cmd) {
    match l
    case Log(_, _, down, _, first, downNo, seen) =>
      |z.data| == 7 &&
      var a := FromBe16(z.data, 5);
      var n := Ahead(down, a);
      && n <= EV_BLOCK_SIZE && a == Phys(downNo + n) && downNo + n <= Reach(seen, first)
      && JustRun(l, n)
      && z == SetBuffAddrDown(Short, z.dst, a)
  }

  ghost predicate RequestOk(l: Log, dev: Dev, z: Cmd) {
    if z.target == TARGET_GET_BUFF_DATA then BlockAsked(l, dev, z)
    else if z.target == TARGET_SET_BUFF_ADDR_DOWN then DownAsked(l, z)
    else Queueable(z)
  }

  /** The pointers a device has sent: its `down` still, and an `up` it has reached. */
  ghost predicate PointersOk(l: Log, r: Reply) {
    var up := FromBe16(r.buff, 0);
    && FromBe16(r.buff, 2) == Phys(l.downNo)
    && l.downNo + Ahead(l.down, up) <= |l.all| && up == Phys(l.downNo + Ahead(l.down, up))
  }

  /** The device has sent the records asked for; the reply's length may fall short of them. */
  ghost predicate BlockOk(l: Log, z: Cmd, r: Reply)
    requires |z.data| == 5
  {
    var n := z.data[2] / EVENT_SIZE;
    && r.len <= z.data[2] && n <= EV_BLOCK_SIZE && l.downNo + n <= |l.all|
    && Records(r.buff, n) == l.all[l.downNo..l.downNo + n]
  }

  ghost predicate AnswerOk(l: Log, dev: Dev, z: Cmd, r: Reply) {
    if z.target == TARGET_GET_BUFF_DATA then
      BlockAsked(l, dev, z) && (Refusal(r) || (!IsReplyFrame(r) && BlockOk(l, z, r)))
    else if z.target == TARGET_SET_BUFF_ADDR_DOWN then IsReplyFrame(r)
    else if z.target == TARGET_GET_BUFF_ADDR then Refusal(r) || (!IsReplyFrame(r) && PointersOk(l, r))
    else z.target == TARGET_GET_CID ==> !IsAck(r)
  }

  /** At most one message is on the line. It is the last command sent, or its answer. */
  ghost predicate LineOk(s: Sys) {
    match s
    case Sys(g, line, logs) =>
      line == [] || (|line| == 1 && g.wire != [] && PacketOk(g, line[0], logs[g.dev]))
  }

  ghost predicate PacketOk(g: Gate, p: Packet, l: Log)
    requires g.wire != []
  {
    var z, dev := g.wire[|g.wire| - 1], g.devices[g.dev];
    match p
    case Request(y) => y == z && RequestOk(l, dev, z)
    case Answer(r) => r.src == g.dev && AnswerOk(l, dev, z, r)
  }

  /** The globals of `send_mess` describe the last command sent, and inside the chain the
      handler is `cb_log_read` and `bound_down` is the address the chain's block was asked
      from. */
  ghost predicate ChainTop(g: Gate) {
    if g.wire == [] then g.target == 0
    else
      var z := g.wire[|g.wire| - 1];
      && z.target == g.target && z.dst == g.dev
      && (g.target == TARGET_GET_BUFF_DATA ==>
            g.handler == LogHandler && |z.data| == 5 &&
            z == GetBuffData(Short, g.dev, g.devices[g.dev].boundDown, z.data[2]))
      && (g.target == TARGET_SET_BUFF_ADDR_DOWN ==>
            g.handler == LogHandler && |g.wire| > 1 &&
            var y := g.wire[|g.wire| - 2];
            y.target == TARGET_GET_BUFF_DATA && |y.data| == 5 && Begin(y.data) == g.devices[g.dev].boundDown)
  }

  /** A pointer write names the end of some whole records of the block asked for. */
  ghost predicate EndsWithin(z: Cmd, y: Cmd) {
    && |y.data| == 5 && Begin(y.data) <= MAX_LOG_BOUND
    && exists n :: 0 <= n <= y.data[2] / EVENT_SIZE
                   && z == SetBuffAddrDown(Short, z.dst, NextDown(Begin(y.data), n))
  }

  /** On the line, a block request directly follows the same device's pointer request, and
      a pointer write directly follows the block request whose records it passes. */
  ghost predicate Linked(wire: seq<Cmd>, k: nat)
    requires k < |wire|
  {
    && (wire[k].target == TARGET_GET_BUFF_DATA ==>
          k > 0 && wire[k - 1].target == TARGET_GET_BUFF_ADDR && wire[k - 1].dst == wire[k].dst)
    && (wire[k].target == TARGET_SET_BUFF_ADDR_DOWN ==>
          k > 0 && wire[k - 1].target == TARGET_GET_BUFF_DATA && wire[k - 1].dst == wire[k].dst &&
          EndsWithin(wire[k], wire[k - 1]))
  }

  ghost predicate ChainUnbroken(wire: seq<Cmd>) {
    forall k :: 0 <= k < |wire| ==> Linked(wire, k)
  }

  /** A device's ring, what has been seen of it and what has been reported agree. */
  ghost predicate LogOk(l: Log, dev: Dev) {
    match l
    case Log(_, _, _, _, _, _, _) => RingOk(l) && SeenOk(l, dev.stream) && ReportsCollapse(dev)
  }

  ghost predicate LogsOk(logs: Logs, devices: Devices) {
    forall d: DevId :: LogOk(logs[d], devices[d])
  }

  lemma LogOkSame(l: Log, a: Dev, b: Dev)
    requires LogOk(l, a) && SameReports(a, b)
    ensures LogOk(l, b)
  {
  }

  lemma LogsOkSame(logs: Logs, a: Devices, b: Devices)
    requires LogsOk(logs, a) && forall d: DevId :: SameReports(a[d], b[d])
    ensures LogsOk(logs, b)
  {
    forall d: DevId
      ensures LogOk(logs[d], b[d])
    {
      LogOkSame(logs[d], a[d], b[d]);
    }
  }

  lemma LogsOkOne(logs: Logs, devices: Devices, d: DevId, l: Log, dev: Dev)
    requires LogsOk(logs, devices) && LogOk(l, dev)
    ensures LogsOk(logs[d := l], devices[d := dev])
  {
    var logs', devices' := logs[d := l], devices[d := dev];
    forall e: DevId
      ensures LogOk(logs'[e], devices'[e])
    {
      assert LogOk(logs[e], devices[e]);
    }
  }

  ghost predicate Inv(s: Sys) {
    match s
    case Sys(g, _, logs) =>
      LogsOk(logs, g.devices) && LineOk(s) && ChainTop(g) && ChainUnbroken(g.wire) && QueueClean(g)
  }

  lemma InitInv(s: Sys)
    requires Init(s)
    ensures Inv(s)
  {
  }

  // ----- device steps -----

  lemma PhysAhead(i: nat, k: nat)
    requires k < SLOTS
    ensures Ahead(Phys(i), Phys(i + k)) == k
  {
    ModDiff(i, k);
  }

  lemma RoomMeans(l: Log)
    requires RingOk(l)
    ensures l.up / EVENT_SIZE == |l.all| % SLOTS && NextSlot(l.up) == Phys(|l.all| + 1)
    ensures Room(l) ==> |l.all| + 1 < l.downNo + SLOTS
  {
    ModDiff(|l.all|, 1);
    if |l.all| + 1 == l.downNo + SLOTS {
      ModDiff(l.downNo, SLOTS);
    }
  }

  lemma AppendRing(l: Log, r: Rec)
    requires RingOk(l) && Room(l) && l.up / EVENT_SIZE < SLOTS
    ensures RingOk(Append(l, r))
  {
    RoomMeans(l);
    var l' := Append(l, r);
    forall i | l'.downNo <= i < |l'.all|
      ensures l'.slots[i % SLOTS] == l'.all[i]
    {
      if i < |l.all| {
        DifferentSlots(i, |l.all|);
      }
    }
  }

  lemma DifferentSlots(i: nat, j: nat)
    requires i < j < i + SLOTS
    ensures i % SLOTS != j % SLOTS
  {
    ModDiff(i, j - i);
  }

  lemma AppendSeen(l: Log, stream: seq<Rec>, r: Rec)
    requires SeenOk(l, stream) && l.up / EVENT_SIZE < SLOTS
    ensures SeenOk(Append(l, r), stream)
  {
  }

  lemma AppendRequest(l: Log, dev: Dev, z: Cmd, r: Rec)
    requires l.up / EVENT_SIZE < SLOTS && RequestOk(l, dev, z)
    ensures RequestOk(Append(l, r), dev, z)
  {
  }

  lemma AppendAnswer(l: Log, dev: Dev, z: Cmd, a: Reply, r: Rec)
    requires l.up / EVENT_SIZE < SLOTS && AnswerOk(l, dev, z, a)
    ensures AnswerOk(Append(l, r), dev, z, a)
  {
    if z.target == TARGET_GET_BUFF_DATA && !Refusal(a) {
      assert Append(l, r).all[l.downNo..l.downNo + RecordCount(a)] == l.all[l.downNo..l.downNo + RecordCount(a)];
    }
  }

  lemma LayoutSlice(rs: seq<Rec>, a: nat, n: nat)
    requires a + n <= |rs|
    ensures Layout(rs)[EVENT_SIZE * a..EVENT_SIZE * (a + n)] == Layout(rs[a..a + n])
  {
    var front, mid, back := rs[..a], rs[a..a + n], rs[a + n..];
    SplitThree(rs, a, n);
    LayoutThree(front, mid, back);
    Middle(Layout(front), Layout(mid), Layout(back));
  }

  lemma SplitThree<T>(s: seq<T>, a: nat, n: nat)
    requires a + n <= |s|
    ensures s == s[..a] + s[a..a + n] + s[a + n..]
  {
  }

  lemma LayoutThree(a: seq<Rec>, b: seq<Rec>, c: seq<Rec>)
    ensures Layout(a + b + c) == Layout(a) + Layout(b) + Layout(c)
  {
    LayoutConcat(a, b);
    LayoutConcat(a + b, c);
  }

  lemma Middle(a: seq<Byte>, b: seq<Byte>, c: seq<Byte>)
    ensures (a + b + c)[|a|..|a| + |b|] == b
  {
  }

  lemma {:induction false} LayoutConcat(a: seq<Rec>, b: seq<Rec>)
    ensures Layout(a + b) == Layout(a) + Layout(b)
    decreases |b|
  {
    if b == [] {
      assert a + b == a;
    } else {
      var front, r := b[..|b| - 1], b[|b| - 1];
      LayoutConcat(a, front);
      assert (a + b)[..|a + b| - 1] == a + front;
    }
  }

  /** The slots from `down` on hold the records logged from `downNo` on. */
  lemma SlotsHold(l: Log, n: nat)
    requires RingOk(l) && l.downNo + n <= |l.all| && l.downNo % SLOTS + n <= SLOTS
    ensures l.slots[l.downNo % SLOTS..l.downNo % SLOTS + n] == l.all[l.downNo..l.downNo + n]
  {
    var a, rs := l.downNo % SLOTS, l.all[l.downNo..l.downNo + n];
    forall i | 0 <= i < n
      ensures l.slots[a + i] == rs[i]
    {
      ModDiff(l.downNo, i);
    }
  }

  /** What the device sends for a block request are the records logged from `down` on. */
  lemma BlockAnswer(l: Log, dev: Dev, z: Cmd, r: Reply)
    requires RingOk(l) && BlockAsked(l, dev, z) && Answers(l, z, r, false) && !IsReplyFrame(r)
    ensures BlockOk(l, z, r)
  {
    var n, a := z.data[2] / EVENT_SIZE, l.downNo % SLOTS;
    BuffDataBytes(Short, z.dst, Phys(l.downNo), EVENT_SIZE * n);
    LayoutSlice(l.slots, a, n);
    SlotsHold(l, n);
    BufferReads(r.buff, l.slots[a..a + n]);
  }

  lemma BufferReads(buff: seq<Byte>, rs: seq<Rec>)
    requires |Layout(rs)| <= |buff| && buff[..|Layout(rs)|] == Layout(rs)
    ensures Records(buff, |rs|) == rs
  {
    var k := |Layout(rs)|;
    assert buff[..k] + buff[k..] == buff;
    RecordsOfLayout(rs, buff[k..]);
  }

  lemma MoveDownOk(l: Log, stream: seq<Rec>, z: Cmd)
    requires RingOk(l) && SeenOk(l, stream) && DownAsked(l, z)
    ensures var l' := MoveDown(l, FromBe16(z.data, 5)); RingOk(l') && SeenOk(l', stream)
  {
  }

  lemma PointerAnswer(l: Log, z: Cmd, r: Reply, applied: bool)
    requires RingOk(l) && Answers(l, z, r, applied) && AsksLogPointers(z.cmdN, z.data)
    ensures Refusal(r) || (!IsReplyFrame(r) && PointersOk(l, r))
  {
    if !Refusal(r) {
      var s := ToBe16(l.up) + ToBe16(l.down);
      assert s == [] + ToBe16(l.up) + ToBe16(l.down) && s == ToBe16(l.up) + ToBe16(l.down) + [];
      Be16RoundTrip([], l.up, ToBe16(l.down));
      Be16RoundTrip(ToBe16(l.up), l.down, []);
      assert FromBe16(r.buff, 0) == FromBe16(r.buff[..4], 0) && FromBe16(r.buff, 2) == FromBe16(r.buff[..4], 2);
      PhysAhead(l.downNo, |l.all| - l.downNo);
    }
  }

  lemma SetsDownWrites(z: Cmd)
    requires SetsDown(z.cmdN, z.data)
    ensures WritesLogPointers(z.cmdN, z.data)
  {
    var head := z.data[..5];
    assert z.data[1] == head[1] && z.data[2] == head[2] && z.data[3] == head[3] && z.data[4] == head[4];
  }

  lemma QueueableDoesNotSetDown(z: Cmd)
    requires Queueable(z)
    ensures !SetsDown(z.cmdN, z.data)
  {
    if SetsDown(z.cmdN, z.data) {
      SetsDownWrites(z);
    }
  }

  /** A request that is in order is answered in order, and leaves the device in order. */
  lemma AnswerRequest(l: Log, dev: Dev, z: Cmd, r: Reply, applied: bool)
    requires RingOk(l) && SeenOk(l, dev.stream) && RequestOk(l, dev, z) && Answers(l, z, r, applied)
    ensures |z.data| < 7 ==> !applied
    ensures var l' := if applied then MoveDown(l, FromBe16(z.data, 5)) else l;
            RingOk(l') && SeenOk(l', dev.stream) && AnswerOk(l', dev, z, r)
  {
    if z.target == TARGET_GET_BUFF_DATA {
      if !Refusal(r) {
        BlockAnswer(l, dev, z, r);
      }
    } else if z.target == TARGET_SET_BUFF_ADDR_DOWN {
      SetDownBytes(Short, z.dst, FromBe16(z.data, 5));
      MoveDownOk(l, dev.stream, z);
    } else {
      QueueableDoesNotSetDown(z);
      if z.target == TARGET_GET_BUFF_ADDR {
        PointerAnswer(l, z, r, applied);
      }
    }
  }

  // ----- steps of the program -----

  /** A step that keeps the line state: what was on the line stays, or is lost. */
  lemma TidyKeepsInv(s: Sys, g': Gate, line: seq<Packet>)
    requires Inv(s) && Tidy(s.g, g') && (line == s.line || line == [])
    ensures Inv(Sys(g', line, s.logs)) && Sent(s.g, g') == []
  {
    assert SameLog(s.g.devices[s.g.dev], g'.devices[s.g.dev]);
    assert forall d: DevId :: SameLog(s.g.devices[d], g'.devices[d]);
    LogsOkSame(s.logs, s.g.devices, g'.devices);
  }

  /** A step outside the chain that finds or leaves the line free. */
  lemma QuietKeepsInv(s: Sys, g': Gate)
    requires Inv(s) && Quiet(s.g, g')
    ensures Inv(Sys(g', Sent(s.g, g'), s.logs))
  {
    LogsOkSame(s.logs, s.g.devices, g'.devices);
    if Sends(s.g, g') {
      WireGrows(s.g, g');
    }
  }

  lemma WireGrows(g: Gate, g': Gate)
    requires Sends(g, g') && ChainUnbroken(g.wire)
    ensures ChainUnbroken(g'.wire) && ChainTop(g')
    ensures Sent(g, g') == [Request(g'.wire[|g.wire|])]
  {
    forall k | 0 <= k < |g'.wire|
      ensures Linked(g'.wire, k)
    {
      assert k < |g.wire| ==> g'.wire[k] == g'.wire[..|g.wire|][k] == g.wire[k] && Linked(g.wire, k);
      assert 0 < k < |g.wire| ==> g'.wire[k - 1] == g'.wire[..|g.wire|][k - 1] == g.wire[k - 1];
    }
  }

  lemma SendSent(g: Gate, m: Gate, z: Cmd)
    requires m.wire == g.wire
    ensures Send(m, z).wire == g.wire + [z] && Sent(g, Send(m, z)) == [Request(z)]
  {
  }

  lemma LinkSnoc(wire: seq<Cmd>, z: Cmd)
    requires ChainUnbroken(wire) && Linked(wire + [z], |wire|)
    ensures ChainUnbroken(wire + [z])
  {
    var w := wire + [z];
    forall k | 0 <= k < |w|
      ensures Linked(w, k)
    {
      if k < |wire| {
        assert Linked(wire, k);
      }
    }
  }

  /** How many records the pointers in a reply leave to ask for. */
  function Offered(l: Log, r: Reply): nat {
    BlockCount(l.downNo, l.downNo + Ahead(l.down, FromBe16(r.buff, 0)))
  }

  /** The pointers arrive: the block asked for next starts at the device's `down`. */
  lemma PointersArrive(g: Gate, l: Log, r: Reply)
    requires RingOk(l) && PointersOk(l, r)
    ensures var dev' := DevAt(g, r.src).(boundDown := FromBe16(r.buff, 2), boundUp := FromBe16(r.buff, 0));
            var n := Offered(l, r);
            && SameReports(DevAt(g, r.src), dev')
            && (n == 0 ==> LogPointers(g, r) == (SetDev(g, r.src, dev'), false))
            && (n > 0 ==> var z := GetBuffData(Short, r.src, Phys(l.downNo), EVENT_SIZE * n);
                  LogPointers(g, r) == (Send(SetDev(g, r.src, dev'), z), true) && BlockAsked(l, dev', z))
  {
    var up := FromBe16(r.buff, 0);
    RingArithmetic(l.downNo, l.downNo + Ahead(l.down, up));
    var n := Offered(l, r);
    var dev' := DevAt(g, r.src).(boundDown := FromBe16(r.buff, 2), boundUp := up);
    if n > 0 {
      var z := GetBuffData(Short, r.src, Phys(l.downNo), EVENT_SIZE * n);
      assert |z.data| == 5 && z.data[2] == EVENT_SIZE * n;
      assert BlockAsked(l, dev', z);
    }
  }

  lemma NextDownPhys(i: nat, n: nat)
    requires i % SLOTS + n <= SLOTS
    ensures NextDown(Phys(i), n) == Phys(i + n)
  {
    ModDiff(i, n);
  }

  lemma BlockNoted(l: Log, dev: Dev, dev': Dev, n: nat)
    requires RingOk(l) && dev.boundDown == Phys(l.downNo) && l.downNo + n <= |l.all|
    requires dev'.stream == dev.stream + l.all[l.downNo..l.downNo + n]
    ensures NoteSeen(l, dev.boundDown, dev, dev') == l.(seen := l.seen + Range(l.downNo, n))
  {
    PhysAhead(l.downNo, 0);
    assert n == 0 ==> l.seen + Range(l.downNo, 0) == l.seen;
  }

  /** However short a block is taken, what it holds are records from `down` on. */
  lemma BlockRead(l: Log, dev: Dev, z: Cmd, r: Reply)
    requires BlockAsked(l, dev, z) && BlockOk(l, z, r)
    ensures var n := RecordCount(r);
            n <= z.data[2] / EVENT_SIZE && Records(r.buff, n) == l.all[l.downNo..l.downNo + n]
  {
    var n := RecordCount(r);
    assert Records(r.buff, n) == Records(r.buff, z.data[2] / EVENT_SIZE)[..n];
  }

  /** The block arrives: its records run through the loop... */
  lemma BlockArrives(l: Log, dev: Dev, z: Cmd, r: Reply, db: DbLayer.Db)
    requires LogOk(l, dev) && BlockAsked(l, dev, z) && BlockOk(l, z, r)
    ensures var dev' := AfterRecords(dev, db, Records(r.buff, RecordCount(r)));
            var l' := NoteSeen(l, dev.boundDown, dev, dev');
            && l' == l.(seen := l.seen + Range(l.downNo, RecordCount(r)))
            && LogOk(l', dev')
  {
    var n := RecordCount(r);
    BlockRead(l, dev, z, r);
    AfterRecordsReports(dev, db, Records(r.buff, n));
    BlockNoted(l, dev, AfterRecords(dev, db, Records(r.buff, n)), n);
    SeenMore(l, dev.stream, n);
  }

  /** A pointer write past `n` records from `down` on is in order: they have just been run. */
  ghost predicate Passable(l: Log, n: nat) {
    match l
    case Log(_, _, _, _, first, downNo, seen) =>
      RingOk(l) && n <= EV_BLOCK_SIZE && downNo + n <= Reach(seen, first) && JustRun(l, n)
  }

  /** ...and the pointer write that follows passes no other records. */
  lemma BlockPassable(l: Log, dev: Dev, z: Cmd, r: Reply)
    requires RingOk(l) && SeenOk(l, dev.stream) && BlockAsked(l, dev, z) && BlockOk(l, z, r)
    ensures var n := RecordCount(r);
            l.downNo % SLOTS + n <= SLOTS && Passable(l.(seen := l.seen + Range(l.downNo, n)), n)
  {
    BlockRead(l, dev, z, r);
    RangePassable(l, dev.stream, RecordCount(r));
  }

  lemma RangePassable(l: Log, stream: seq<Rec>, n: nat)
    requires RingOk(l) && SeenOk(l, stream) && n <= EV_BLOCK_SIZE
    ensures Passable(l.(seen := l.seen + Range(l.downNo, n)), n)
  {
    SeenRange(l.seen, l.first, l.downNo, n);
    RangeJustRun(l, n);
  }

  lemma RangeJustRun(l: Log, n: nat)
    ensures JustRun(l.(seen := l.seen + Range(l.downNo, n)), n)
  {
    var seen := l.seen + Range(l.downNo, n);
    assert seen[|seen| - n..] == Range(l.downNo, n);
  }

  lemma DownIsAsked(l: Log, d: DevId, n: nat)
    requires Passable(l, n)
    ensures DownAsked(l, SetBuffAddrDown(Short, d, Phys(l.downNo + n)))
  {
    SetDownBytes(Short, d, Phys(l.downNo + n));
    PhysAhead(l.downNo, n);
  }

  lemma SeenMore(l: Log, stream: seq<Rec>, n: nat)
    requires SeenOk(l, stream) && l.first <= l.downNo && l.downNo + n <= |l.all|
    ensures SeenOk(l.(seen := l.seen + Range(l.downNo, n)), stream + l.all[l.downNo..l.downNo + n])
  {
    SeenRange(l.seen, l.first, l.downNo, n);
  }

  // ----- an answer arrives -----

  lemma TidyThenQuiet(g: Gate, m: Gate, g': Gate)
    requires Tidy(g, m) && Quiet(m, g')
    ensures Quiet(g, g') && Sent(g, g') == Sent(m, g')
  {
    forall d: DevId
      ensures SameReports(g.devices[d], g'.devices[d])
    {
      assert SameLog(g.devices[d], m.devices[d]) && SameReports(m.devices[d], g'.devices[d]);
    }
    assert SameLog(g.devices[g.dev], m.devices[g.dev]);
  }

  /** Nothing ran through the loop, so the log histories stay. */
  lemma QuietLogs(s: Sys, g': Gate)
    requires Quiet(s.g, g')
    ensures var d := s.g.dev;
            s.logs[d := NoteSeen(s.logs[d], s.g.devices[d].boundDown, s.g.devices[d], g'.devices[d])] == s.logs
  {
    assert SameReports(s.g.devices[s.g.dev], g'.devices[s.g.dev]);
  }

  /** One answer is on the line. */
  ghost predicate Awaiting(s: Sys) {
    Inv(s) && s.line != [] && s.line[0].Answer?
  }

  lemma DeliverOffChain(s: Sys)
    requires Awaiting(s) && OffChain(s.g, s.line[0].r)
    ensures Inv(Delivered(s, s.line[0].r))
  {
    var g1, r := ReadStart(s.g), s.line[0].r;
    ReadStartTidy(s.g);
    DispatchQuiet(g1, r);
    TidyThenQuiet(s.g, g1, Dispatch(g1, r));
    QuietAnswer(s, Dispatch(g1, r));
  }

  /** The pointers were equal or bad: the chain ends. */
  lemma EndOfChain(s: Sys, g1: Gate, dev': Dev)
    requires Inv(s) && Tidy(s.g, g1) && SameReports(DevAt(g1, s.g.dev), dev')
    requires s.g.target == TARGET_GET_BUFF_ADDR
    ensures Quiet(s.g, PutCmd(SetDev(g1, s.g.dev, dev')))
  {
    var g, m := s.g, SetDev(g1, s.g.dev, dev');
    var g' := PutCmd(m);
    TidyPutQuiet(m, m);
    forall d: DevId
      ensures SameReports(g.devices[d], g'.devices[d])
    {
      assert SameLog(g.devices[d], g1.devices[d]) && SameReports(m.devices[d], g'.devices[d]);
    }
  }

  /** The program after the pointers: the next block is asked for, or the chain ends. */
  function AfterPointers(g1: Gate, l: Log, r: Reply): Gate {
    var dev' := DevAt(g1, r.src).(boundDown := FromBe16(r.buff, 2), boundUp := FromBe16(r.buff, 0));
    if Offered(l, r) > 0
    then Send(SetDev(g1, r.src, dev'), GetBuffData(Short, r.src, Phys(l.downNo), EVENT_SIZE * Offered(l, r)))
    else PutCmd(SetDev(g1, r.src, dev'))
  }

  lemma DispatchPointers(g: Gate, l: Log, r: Reply)
    requires g.handler == LogHandler && g.target == TARGET_GET_BUFF_ADDR && r.src == g.dev && !IsReplyFrame(r)
    requires RingOk(l) && PointersOk(l, r)
    ensures Dispatch(g, r) == AfterPointers(g, l, r)
  {
    PointersArrive(g, l, r);
  }

  /** The pointers of device `s.g.dev` are on the line. */
  ghost predicate PointersDue(s: Sys) {
    Awaiting(s) && s.g.handler == LogHandler && s.g.target == TARGET_GET_BUFF_ADDR && !IsReplyFrame(s.line[0].r)
  }

  lemma DeliveredPointers(s: Sys)
    requires PointersDue(s)
    ensures FrameIn(s.g, s.line[0].r) == AfterPointers(ReadStart(s.g), s.logs[s.g.dev], s.line[0].r)
  {
    ReadStartTidy(s.g);
    DispatchPointers(ReadStart(s.g), s.logs[s.g.dev], s.line[0].r);
  }

  lemma DeliverPointers(s: Sys)
    requires PointersDue(s)
    ensures Inv(Delivered(s, s.line[0].r))
  {
    ReadStartTidy(s.g);
    DeliveredPointers(s);
    AfterPointersInv(s, ReadStart(s.g));
  }

  lemma AfterPointersInv(s: Sys, g1: Gate)
    requires PointersDue(s) && Tidy(s.g, g1)
    ensures Inv(AfterAnswer(s, AfterPointers(g1, s.logs[s.g.dev], s.line[0].r)))
  {
    var r, l := s.line[0].r, s.logs[s.g.dev];
    PointersArrive(g1, l, r);
    var dev' := DevAt(g1, r.src).(boundDown := FromBe16(r.buff, 2), boundUp := FromBe16(r.buff, 0));
    if Offered(l, r) > 0 {
      BlockIsAskedInv(s, g1, dev', GetBuffData(Short, r.src, Phys(l.downNo), EVENT_SIZE * Offered(l, r)));
    } else {
      EndOfChain(s, g1, dev');
      QuietAnswer(s, PutCmd(SetDev(g1, s.g.dev, dev')));
    }
  }

  lemma QuietAnswer(s: Sys, g': Gate)
    requires Awaiting(s) && Quiet(s.g, g')
    ensures Inv(AfterAnswer(s, g'))
  {
    QuietKeepsInv(s, g');
    QuietLogs(s, g');
  }

  lemma BlockIsAskedInv(s: Sys, g1: Gate, dev': Dev, z: Cmd)
    requires Awaiting(s) && Tidy(s.g, g1) && g1.handler == LogHandler && s.g.target == TARGET_GET_BUFF_ADDR
    requires SameReports(DevAt(g1, s.g.dev), dev')
    requires z.dst == s.g.dev && z.target == TARGET_GET_BUFF_DATA && BlockAsked(s.logs[s.g.dev], dev', z)
    ensures Inv(AfterAnswer(s, Send(SetDev(g1, s.g.dev, dev'), z)))
  {
    BlockIsAsked(s, g1, dev', z);
    AnswerParts(s, Send(SetDev(g1, s.g.dev, dev'), z), s.logs[s.g.dev], z);
    assert s.logs[s.g.dev := s.logs[s.g.dev]] == s.logs;
  }

  lemma BlockIsAsked(s: Sys, g1: Gate, dev': Dev, z: Cmd)
    requires Awaiting(s) && Tidy(s.g, g1) && g1.handler == LogHandler && s.g.target == TARGET_GET_BUFF_ADDR
    requires SameReports(DevAt(g1, s.g.dev), dev')
    requires z.dst == s.g.dev && z.target == TARGET_GET_BUFF_DATA && BlockAsked(s.logs[s.g.dev], dev', z)
    ensures var g' := Send(SetDev(g1, s.g.dev, dev'), z);
            && Sent(s.g, g') == [Request(z)] && Inv(Sys(g', [Request(z)], s.logs))
            && NoteSeen(s.logs[s.g.dev], s.g.devices[s.g.dev].boundDown, s.g.devices[s.g.dev], g'.devices[s.g.dev])
               == s.logs[s.g.dev]
  {
    var g' := Send(SetDev(g1, s.g.dev, dev'), z);
    SendSent(s.g, SetDev(g1, s.g.dev, dev'), z);
    LinkSnoc(s.g.wire, z);
    forall d: DevId
      ensures SameReports(s.g.devices[d], g'.devices[d])
    {
      assert SameLog(s.g.devices[d], g1.devices[d]);
    }
    LogsOkSame(s.logs, s.g.devices, g'.devices);
    assert QueueClean(g') by {
      assert g'.q == g1.q;
    }
  }

  lemma DispatchBlock(g: Gate, r: Reply)
    requires g.handler == LogHandler && g.target == TARGET_GET_BUFF_DATA && r.src == g.dev && !IsReplyFrame(r)
    requires DevAt(g, g.dev).boundDown <= MAX_LOG_BOUND
    ensures var dev := DevAt(g, g.dev);
            Dispatch(g, r) == Send(SetDev(g, g.dev, AfterRecords(dev, g.db, Records(r.buff, RecordCount(r)))),
                                   SetBuffAddrDown(Short, g.dev, NextDown(dev.boundDown, RecordCount(r))))
  {
  }

  /** The program after a block: its records have run, and the pointer write is sent. */
  function AfterBlock(g1: Gate, r: Reply): Gate {
    var dev := DevAt(g1, g1.dev);
    Send(SetDev(g1, g1.dev, AfterRecords(dev, g1.db, Records(r.buff, RecordCount(r)))),
         SetBuffAddrDown(Short, g1.dev, NextDown(Min(dev.boundDown, MAX_LOG_BOUND), RecordCount(r))))
  }

  lemma DeliveredBlock(s: Sys)
    requires Awaiting(s) && s.g.target == TARGET_GET_BUFF_DATA && !IsReplyFrame(s.line[0].r)
    ensures FrameIn(s.g, s.line[0].r) == AfterBlock(ReadStart(s.g), s.line[0].r)
  {
    ReadStartTidy(s.g);
    assert SameLog(DevAt(s.g, s.g.dev), DevAt(ReadStart(s.g), s.g.dev));
    DispatchBlock(ReadStart(s.g), s.line[0].r);
  }

  lemma AnswerParts(s: Sys, g': Gate, l: Log, z: Cmd)
    requires |s.line| == 1 && Sent(s.g, g') == [Request(z)]
    requires l == NoteSeen(s.logs[s.g.dev], s.g.devices[s.g.dev].boundDown, s.g.devices[s.g.dev], g'.devices[s.g.dev])
    ensures AfterAnswer(s, g') == Sys(g', [Request(z)], s.logs[s.g.dev := l])
  {
  }

  lemma DeliverBlock(s: Sys)
    requires Awaiting(s) && s.g.target == TARGET_GET_BUFF_DATA && !IsReplyFrame(s.line[0].r)
    ensures Inv(Delivered(s, s.line[0].r))
  {
    ReadStartTidy(s.g);
    DeliveredBlock(s);
    AfterBlockInv(s, ReadStart(s.g));
  }

  lemma AfterBlockInv(s: Sys, g1: Gate)
    requires Awaiting(s) && s.g.target == TARGET_GET_BUFF_DATA && !IsReplyFrame(s.line[0].r)
    requires Tidy(s.g, g1)
    ensures Inv(AfterAnswer(s, AfterBlock(g1, s.line[0].r)))
  {
    var d, r := s.g.dev, s.line[0].r;
    var dev, n := DevAt(g1, d), RecordCount(r);
    assert SameLog(DevAt(s.g, d), dev);
    BlockInHand(s, dev, g1.db);
    var dev' := AfterRecords(dev, g1.db, Records(r.buff, n));
    AfterBlockIs(g1, r, dev', n);
    BlockIsStored(s, g1, dev', n);
  }

  lemma AfterBlockIs(g1: Gate, r: Reply, dev': Dev, n: nat)
    requires DevAt(g1, g1.dev).boundDown <= MAX_LOG_BOUND && n == RecordCount(r)
    requires dev' == AfterRecords(DevAt(g1, g1.dev), g1.db, Records(r.buff, n))
    ensures dev'.boundDown == DevAt(g1, g1.dev).boundDown
    ensures AfterBlock(g1, r) == WithBlock(g1, g1.dev, dev', n)
  {
  }

  /** The records are stored and the pointer write past `n` of them sent. */
  function WithBlock(g1: Gate, d: DevId, dev': Dev, n: nat): Gate
    requires dev'.boundDown <= MAX_LOG_BOUND
  {
    Send(SetDev(g1, d, dev'), SetBuffAddrDown(Short, d, NextDown(dev'.boundDown, n)))
  }

  /** A block has run and is in the history; the pointer may pass it. */
  ghost predicate Held(l: Log, dev: Dev, n: nat) {
    match l
    case Log(_, _, _, _, _, downNo, _) =>
      && LogOk(l, dev) && Passable(l, n)
      && dev.boundDown <= MAX_LOG_BOUND && NextDown(dev.boundDown, n) == Phys(downNo + n)
  }

  lemma NoteSeenSame(l: Log, a: Dev, b: Dev, after: Dev)
    requires SameLog(a, b)
    ensures NoteSeen(l, a.boundDown, a, after) == NoteSeen(l, b.boundDown, b, after)
  {
  }

  lemma BlockHeld(l: Log, dev: Dev, z: Cmd, r: Reply, db: DbLayer.Db)
    requires LogOk(l, dev) && BlockAsked(l, dev, z) && BlockOk(l, z, r)
    ensures var dev' := AfterRecords(dev, db, Records(r.buff, RecordCount(r)));
            Held(NoteSeen(l, dev.boundDown, dev, dev'), dev', RecordCount(r))
  {
    var n := RecordCount(r);
    BlockArrives(l, dev, z, r, db);
    BlockPassable(l, dev, z, r);
    HeldNow(l.(seen := l.seen + Range(l.downNo, n)), AfterRecords(dev, db, Records(r.buff, n)), n);
  }

  lemma HeldNow(l: Log, dev: Dev, n: nat)
    requires LogOk(l, dev) && Passable(l, n) && dev.boundDown == Phys(l.downNo) && l.downNo % SLOTS + n <= SLOTS
    ensures Held(l, dev, n)
  {
    NextDownPhys(l.downNo, n);
  }

  lemma BlockInHand(s: Sys, dev: Dev, db: DbLayer.Db)
    requires Awaiting(s) && s.g.target == TARGET_GET_BUFF_DATA && !IsReplyFrame(s.line[0].r)
    requires SameLog(DevAt(s.g, s.g.dev), dev)
    ensures var r, d, z := s.line[0].r, s.g.dev, s.g.wire[|s.g.wire| - 1];
            var dev' := AfterRecords(dev, db, Records(r.buff, RecordCount(r)));
            && dev'.boundDown == dev.boundDown <= MAX_LOG_BOUND
            && RecordCount(r) <= z.data[2] / EVENT_SIZE <= 8
            && Held(NoteSeen(s.logs[d], s.g.devices[d].boundDown, s.g.devices[d], dev'), dev', RecordCount(r))
  {
    var r, l, z := s.line[0].r, s.logs[s.g.dev], s.g.wire[|s.g.wire| - 1];
    NoteSeenSame(l, DevAt(s.g, s.g.dev), dev, AfterRecords(dev, db, Records(r.buff, RecordCount(r))));
    LogOkSame(l, DevAt(s.g, s.g.dev), dev);
    BlockRead(l, dev, z, r);
    BlockHeld(l, dev, z, r, db);
  }

  lemma BlockIsStored(s: Sys, g1: Gate, dev': Dev, n: nat)
    requires Awaiting(s) && Tidy(s.g, g1) && s.g.target == TARGET_GET_BUFF_DATA
    requires n <= s.g.wire[|s.g.wire| - 1].data[2] / EVENT_SIZE <= 8
    requires dev'.boundDown == DevAt(s.g, s.g.dev).boundDown <= MAX_LOG_BOUND
    requires Held(NoteSeen(s.logs[s.g.dev], dev'.boundDown, s.g.devices[s.g.dev], dev'), dev', n)
    ensures Inv(AfterAnswer(s, WithBlock(g1, s.g.dev, dev', n)))
  {
    var l' := NoteSeen(s.logs[s.g.dev], dev'.boundDown, s.g.devices[s.g.dev], dev');
    var g' := WithBlock(g1, s.g.dev, dev', n);
    var y := SetBuffAddrDown(Short, s.g.dev, NextDown(dev'.boundDown, n));
    SendSent(s.g, SetDev(g1, s.g.dev, dev'), y);
    AnswerParts(s, g', l', y);
    StoredLogs(s, g1, dev', n, l');
    HeldIsAsked(l', dev', s.g.dev, n);
    StoredChain(s, g1, dev', n);
    StoredQueue(s, g1, dev', n);
    WithDownAsked(g', s.logs[s.g.dev := l'], l', y);
  }

  lemma HeldIsAsked(l: Log, dev: Dev, d: DevId, n: nat)
    requires Held(l, dev, n)
    ensures dev.boundDown <= MAX_LOG_BOUND
    ensures DownAsked(l, SetBuffAddrDown(Short, d, NextDown(dev.boundDown, n)))
  {
    DownIsAsked(l, d, n);
  }

  lemma StoredQueue(s: Sys, g1: Gate, dev': Dev, n: nat)
    requires QueueClean(s.g) && Tidy(s.g, g1) && dev'.boundDown <= MAX_LOG_BOUND
    ensures QueueClean(WithBlock(g1, s.g.dev, dev', n))
  {
    assert WithBlock(g1, s.g.dev, dev', n).q == g1.q;
  }

  /** A pointer write that has just been sent, in order. */
  lemma WithDownAsked(g: Gate, logs: Logs, l: Log, y: Cmd)
    requires LogsOk(logs, g.devices) && ChainTop(g) && ChainUnbroken(g.wire) && QueueClean(g)
    requires g.wire != [] && g.wire[|g.wire| - 1] == y && y.target == TARGET_SET_BUFF_ADDR_DOWN
    requires logs[g.dev] == l && DownAsked(l, y)
    ensures Inv(Sys(g, [Request(y)], logs))
  {
    assert PacketOk(g, Request(y), logs[g.dev]);
  }

  lemma StoredLogs(s: Sys, g1: Gate, dev': Dev, n: nat, l': Log)
    requires LogsOk(s.logs, s.g.devices) && Tidy(s.g, g1) && Held(l', dev', n)
    ensures LogsOk(s.logs[s.g.dev := l'], WithBlock(g1, s.g.dev, dev', n).devices)
  {
    assert forall d: DevId :: SameLog(s.g.devices[d], g1.devices[d]);
    LogsOkSame(s.logs, s.g.devices, g1.devices);
    LogsOkOne(s.logs, g1.devices, s.g.dev, l', dev');
  }

  lemma StoredChain(s: Sys, g1: Gate, dev': Dev, n: nat)
    requires Awaiting(s) && Tidy(s.g, g1) && s.g.target == TARGET_GET_BUFF_DATA
    requires n <= s.g.wire[|s.g.wire| - 1].data[2] / EVENT_SIZE <= 8
    requires dev'.boundDown == DevAt(s.g, s.g.dev).boundDown <= MAX_LOG_BOUND
    ensures var g' := WithBlock(g1, s.g.dev, dev', n); ChainTop(g') && ChainUnbroken(g'.wire)
  {
    var y := SetBuffAddrDown(Short, s.g.dev, NextDown(dev'.boundDown, n));
    var z := s.g.wire[|s.g.wire| - 1];
    BuffDataBytes(Short, s.g.dev, dev'.boundDown, z.data[2]);
    assert EndsWithin(y, z);
    LinkSnoc(s.g.wire, y);
  }

  lemma DeliverInv(s: Sys)
    requires Awaiting(s)
    ensures Inv(Delivered(s, s.line[0].r))
  {
    var r := s.line[0].r;
    if OffChain(s.g, r) {
      DeliverOffChain(s);
    } else if s.g.target == TARGET_GET_BUFF_ADDR {
      DeliverPointers(s);
    } else {
      DeliverBlock(s);
    }
  }

  /** The same answer, cut. */
  function WithCut(s: Sys, missing: nat): Sys
    requires s.line != [] && s.line[0].Answer?
  {
    s.(line := [Answer(Cut(s.line[0].r, missing))])
  }

  lemma CutAwaits(s: Sys, missing: nat)
    requires Awaiting(s)
    ensures Awaiting(WithCut(s, missing))
    ensures var r := Cut(s.line[0].r, missing); Delivered(s, r) == Delivered(WithCut(s, missing), r)
  {
  }

  lemma DeliverCutInv(s: Sys, missing: nat)
    requires Awaiting(s)
    ensures Inv(Delivered(s, Cut(s.line[0].r, missing)))
  {
    CutAwaits(s, missing);
    DeliverInv(WithCut(s, missing));
  }

  // ----- every step, every run -----

  lemma LogEventInv(s: Sys, d: DevId, r: Rec)
    requires Inv(s) && s.logs[d].up / EVENT_SIZE < SLOTS && Room(s.logs[d])
    ensures Inv(s.(logs := s.logs[d := Append(s.logs[d], r)]))
  {
    var l, dev := s.logs[d], s.g.devices[d];
    AppendRing(l, r);
    AppendSeen(l, dev.stream, r);
    if d == s.g.dev && s.line != [] {
      var z := s.g.wire[|s.g.wire| - 1];
      match s.line[0]
      case Request(_) => AppendRequest(l, dev, z, r);
      case Answer(a) => AppendAnswer(l, dev, z, a, r);
    }
  }

  lemma AnsweredInv(s: Sys, r: Reply, applied: bool)
    requires Inv(s) && Enabled(s, Answered(r, applied))
    ensures Inv(Apply(s, Answered(r, applied)))
  {
    var z := s.line[0].z;
    AnswerRequest(s.logs[z.dst], s.g.devices[z.dst], z, r, applied);
  }

  lemma EnableAllTidy(g: Gate)
    ensures Tidy(g, EnableAll(g))
  {
  }

  lemma CallTidy(g: Gate, c: Call)
    requires CallOk(g, c)
    ensures Tidy(g, AppStep(g, c))
  {
    match c
    case CallAddCid(t) => AddCidToAllTidy(g, t);
    case CallAddOne(d, t) => AddCidTidy(g, d, t);
    case CallAddToken(cid, attr, mask) => AddTokenToAllTidy(g, cid, attr, mask);
    case CallReload(d, order) => ReloadTidy(g, d, order);
    case CallCommand(z) => QueueTidy(g, [z]);
    case CallLogScan => LogTickTidy(g, 1);
    case CallEnableAll => EnableAllTidy(g);
    case CallMaxDev(_) =>
    case CallClock(_) =>
  }

  lemma TickInv(s: Sys, due: bool)
    requires Inv(s) && (due ==> s.line == [])
    ensures Inv(s.(g := Timer(s.g, due), line := s.line + Sent(s.g, Timer(s.g, due))))
  {
    if due {
      TimerQuiet(s.g, due);
      QuietKeepsInv(s, Timer(s.g, due));
      assert s.line + Sent(s.g, Timer(s.g, due)) == Sent(s.g, Timer(s.g, due));
    } else {
      assert s.line + Sent(s.g, s.g) == s.line;
    }
  }

  lemma StepInv(s: Sys, st: Step)
    requires Inv(s) && Enabled(s, st)
    ensures Inv(Apply(s, st))
  {
    match st
    case LogEvent(d, rec) => LogEventInv(s, d, rec);
    case Answered(r, applied) => AnsweredInv(s, r, applied);
    case Lose =>
    case Deliver(missing) => DeliverCutInv(s, missing);
    case Reject =>
      ReadStartTidy(s.g);
      TidyKeepsInv(s, ReadStart(s.g), []);
    case Part =>
      ReadStartTidy(s.g);
      TidyKeepsInv(s, ReadStart(s.g), s.line);
    case Tick(due) => TickInv(s, due);
    case App(c) =>
      CallTidy(s.g, c);
      TidyKeepsInv(s, AppStep(s.g, c), s.line);
      assert s.line + [] == s.line;
  }

  lemma {:induction false} RunInv(s: Sys, steps: seq<Step>)
    requires Inv(s) && Legal(s, steps)
    ensures Inv(LineSystem.Run(s, steps))
    decreases steps
  {
    if steps != [] {
      StepInv(s, steps[0]);
      RunInv(Apply(s, steps[0]), steps[1..]);
    }
  }
}
