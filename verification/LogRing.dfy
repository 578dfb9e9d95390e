/** The event log: ring arithmetic and the collapsing of repeated events
    (`cb_log_read`, src/gp_processor.c). */
module LogRing {
  import opened LibGate
  import opened DbLayer

  // ----- collapsing -----

  /** ev_code and addr: the bytes `memcmp` looks at. */
  function Key(r: Rec): seq<Byte> {
    r[..3]
  }

  /** The records reported while `rs` runs through the loop, each with the number of
      repeats met so far; `last` is `last_ev_rec`. */
  function Reported(last: Rec, rs: seq<Rec>, c: nat): seq<(Rec, nat)>
    decreases |rs|
  {
    if rs == [] then []
    else if Key(rs[0]) == Key(last) then Reported(last, rs[1..], c + 1)
    else [(rs[0], c)] + Reported(rs[0], rs[1..], c)
  }

  /** `last_ev_rec` afterwards. */
  function LastKept(last: Rec, rs: seq<Rec>): Rec
    decreases |rs|
  {
    if rs == [] then last
    else LastKept(if Key(rs[0]) == Key(last) then last else rs[0], rs[1..])
  }

  function ToEvent(db: Db, r: Rec, c: nat): Event {
    Event(r, FromBe16(r, 1), CidByAddr(db, FromBe16(r, 1)), c)
  }

  function ToEvents(db: Db, rs: seq<(Rec, nat)>): (es: seq<Event>)
    ensures |es| == |rs|
  {
    seq(|rs|, i requires 0 <= i < |rs| => ToEvent(db, rs[i].0, rs[i].1))
  }

  /** A device's entry after a block of records has run through the loop. */
  function AfterRecords(dev: Dev, db: Db, rs: seq<Rec>): Dev {
    dev.(lastRec := LastKept(dev.lastRec, rs),
         stream := dev.stream + rs,
         events := dev.events + ToEvents(db, Reported(dev.lastRec, rs, 0)))
  }

  /** The meaning: drop every record whose key is that of the record just before it. */
  function Collapse(prev: Rec, rs: seq<Rec>): seq<Rec>
    decreases |rs|
  {
    if rs == [] then []
    else (if Key(rs[0]) == Key(prev) then [] else [rs[0]]) + Collapse(rs[0], rs[1..])
  }

  function LastOf(prev: Rec, rs: seq<Rec>): Rec {
    if rs == [] then prev else rs[|rs| - 1]
  }

  function Recs(es: seq<Event>): (rs: seq<Rec>)
    ensures |rs| == |es|
  {
    seq(|es|, i requires 0 <= i < |es| => es[i].rec)
  }

  lemma {:induction false} ReportedCollapses(db: Db, last: Rec, prev: Rec, rs: seq<Rec>, c: nat)
    requires Key(last) == Key(prev)
    ensures Recs(ToEvents(db, Reported(last, rs, c))) == Collapse(prev, rs)
    ensures Key(LastKept(last, rs)) == Key(LastOf(prev, rs))
    decreases |rs|
  {
    if rs != [] {
      assert LastOf(prev, rs) == LastOf(rs[0], rs[1..]);
      if Key(rs[0]) == Key(last) {
        ReportedCollapses(db, last, rs[0], rs[1..], c + 1);
      } else {
        ReportedCollapses(db, rs[0], rs[0], rs[1..], c);
        var rest := Reported(rs[0], rs[1..], c);
        assert ToEvents(db, [(rs[0], c)] + rest) == [ToEvent(db, rs[0], c)] + ToEvents(db, rest);
        assert Recs([ToEvent(db, rs[0], c)] + ToEvents(db, rest)) == [rs[0]] + Recs(ToEvents(db, rest));
      }
    }
  }

  lemma {:induction false} CollapseConcat(prev: Rec, a: seq<Rec>, b: seq<Rec>)
    ensures Collapse(prev, a + b) == Collapse(prev, a) + Collapse(LastOf(prev, a), b)
    decreases |a|
  {
    if a == [] {
      assert a + b == b;
    } else {
      assert (a + b)[1..] == a[1..] + b;
      CollapseConcat(a[0], a[1..], b);
      assert LastOf(prev, a) == LastOf(a[0], a[1..]);
    }
  }

  /** Everything a device has reported is its whole record stream with repeats dropped,
      starting from an all-zero record. */
  ghost predicate ReportsCollapse(dev: Dev) {
    && Recs(dev.events) == Collapse(ZERO_REC, dev.stream)
    && Key(dev.lastRec) == Key(LastOf(ZERO_REC, dev.stream))
  }

  /** Running a further block keeps that true: the split into blocks does not matter. */
  lemma AfterRecordsReports(dev: Dev, db: Db, rs: seq<Rec>)
    requires ReportsCollapse(dev)
    ensures ReportsCollapse(AfterRecords(dev, db, rs))
  {
    var prev := LastOf(ZERO_REC, dev.stream);
    var more := ToEvents(db, Reported(dev.lastRec, rs, 0));
    ReportedCollapses(db, dev.lastRec, prev, rs, 0);
    CollapseConcat(ZERO_REC, dev.stream, rs);
    assert Recs(dev.events + more) == Recs(dev.events) + Recs(more);
    assert LastOf(prev, rs) == LastOf(ZERO_REC, dev.stream + rs);
  }

  /** How many records of a block were not reported. */
  function Repeats(last: Rec, rs: seq<Rec>): nat
    decreases |rs|
  {
    if rs == [] then 0
    else if Key(rs[0]) == Key(last) then 1 + Repeats(last, rs[1..])
    else Repeats(rs[0], rs[1..])
  }

  /** In each block, reported plus repeated is everything, and the `dup` of a report is the
      number of repeats before it. */
  lemma {:induction false} ReportedCounts(last: Rec, rs: seq<Rec>, c: nat)
    ensures |Reported(last, rs, c)| + Repeats(last, rs) == |rs|
    ensures forall k :: 0 <= k < |Reported(last, rs, c)| ==>
              var (r, dup) := Reported(last, rs, c)[k];
              dup >= c && k + dup - c < |rs| && rs[k + dup - c] == r
    decreases |rs|
  {
    if rs != [] {
      if Key(rs[0]) == Key(last) {
        ReportedCounts(last, rs[1..], c + 1);
      } else {
        ReportedCounts(rs[0], rs[1..], c);
      }
    }
  }

  /** One more record at the end of a block. */
  lemma {:induction false} ReportedSnoc(last: Rec, rs: seq<Rec>, r: Rec, c: nat)
    ensures var again := Key(r) == Key(LastKept(last, rs));
            && Reported(last, rs + [r], c)
                 == Reported(last, rs, c) + (if again then [] else [(r, c + Repeats(last, rs))])
            && LastKept(last, rs + [r]) == (if again then LastKept(last, rs) else r)
            && Repeats(last, rs + [r]) == Repeats(last, rs) + (if again then 1 else 0)
    decreases |rs|
  {
    if rs == [] {
      assert [r][1..] == [];
    } else {
      assert (rs + [r])[1..] == rs[1..] + [r];
      if Key(rs[0]) == Key(last) {
        ReportedSnoc(last, rs[1..], r, c + 1);
      } else {
        ReportedSnoc(rs[0], rs[1..], r, c);
      }
    }
  }

  lemma AfterOneMore(dev: Dev, db: Db, rs: seq<Rec>, r: Rec)
    ensures var d := AfterRecords(dev, db, rs);
            AfterRecords(dev, db, rs + [r]) ==
              if Key(r) == Key(d.lastRec) then d.(stream := d.stream + [r])
              else d.(lastRec := r, stream := d.stream + [r],
                      events := d.events + [ToEvent(db, r, Repeats(dev.lastRec, rs))])
  {
    ReportedSnoc(dev.lastRec, rs, r, 0);
    assert dev.stream + (rs + [r]) == dev.stream + rs + [r];
    var done, c := Reported(dev.lastRec, rs, 0), Repeats(dev.lastRec, rs);
    assert ToEvents(db, done + [(r, c)]) == ToEvents(db, done) + [ToEvent(db, r, c)];
    assert dev.events + (ToEvents(db, done) + [ToEvent(db, r, c)])
        == dev.events + ToEvents(db, done) + [ToEvent(db, r, c)];
  }

  // ----- the ring -----

  /** Records the ring has room for. */
  const SLOTS: nat := 0x1000

  /** The device address of the record with number `i`, counting from the first ever. */
  function Phys(i: nat): (a: Word)
    ensures a < MAX_LOG_BOUND && a % EVENT_SIZE == 0
  {
    EVENT_SIZE * (i % SLOTS)
  }

  /** The length `cb_log_read` asks for. */
  function BlockLen(up: Word, down: Word): (l: nat)
    requires up <= MAX_LOG_BOUND && down <= MAX_LOG_BOUND
    ensures l <= EV_BLOCK_SIZE * EVENT_SIZE
  {
    var l := if up < down then MAX_LOG_BOUND - down else up - down;
    Min(l, EV_BLOCK_SIZE * EVENT_SIZE)
  }

  /** The address written back after `n` records from `down`. */
  function NextDown(down: Word, n: nat): Word
    requires down <= MAX_LOG_BOUND
  {
    var bound := down + EVENT_SIZE * n;
    if bound >= MAX_LOG_BOUND then 0 else bound
  }

  /** How many records a cycle takes: at most a block, none beyond the ring's end, and all
      that wait otherwise. */
  function BlockCount(down: nat, up: nat): (n: nat)
    requires down <= up
    ensures n <= EV_BLOCK_SIZE && n <= up - down
    ensures n == 0 <==> down == up
    ensures down % SLOTS + n <= SLOTS
  {
    Min(EV_BLOCK_SIZE, Min(up - down, SLOTS - down % SLOTS))
  }

  /** For any pointers the code lets through, aligned or not, the block is at most 64 bytes
      and inside the ring, nothing is asked for exactly when the pointers are equal or `down`
      is the ring's end, and what is written back after the whole records of any shorter
      block is the address behind them, going round at the end. */
  lemma RingBounds(up: Word, down: Word, len: nat)
    requires up <= MAX_LOG_BOUND && down <= MAX_LOG_BOUND && len <= BlockLen(up, down)
    ensures var n := len / EVENT_SIZE;
            && BlockLen(up, down) <= EV_BLOCK_SIZE * EVENT_SIZE && down + BlockLen(up, down) <= MAX_LOG_BOUND
            && (BlockLen(up, down) == 0 <==> up == down || down == MAX_LOG_BOUND)
            && NextDown(down, n) == (down + EVENT_SIZE * n) % MAX_LOG_BOUND
  {
  }

  /** For the pointers a device holds, the code's address arithmetic does exactly that: the
      block is whole records, at most 64 bytes, inside the ring, and the new `down` is the
      address of the record after it. */
  lemma RingArithmetic(down: nat, up: nat)
    requires down <= up < down + SLOTS
    ensures var n := BlockCount(down, up);
            && BlockLen(Phys(up), Phys(down)) == EVENT_SIZE * n
            && Phys(down) + EVENT_SIZE * n <= MAX_LOG_BOUND
            && NextDown(Phys(down), n) == Phys(down + n)
  {
    var d, u, n := down % SLOTS, up % SLOTS, BlockCount(down, up);
    ModDiff(down, up - down);
    ModDiff(down, n);
  }

  lemma ModDiff(a: nat, k: nat)
    requires k <= SLOTS
    ensures (a + k) % SLOTS == if a % SLOTS + k < SLOTS then a % SLOTS + k else a % SLOTS + k - SLOTS
  {
  }

  function Cycles(down: nat, up: nat): nat
    requires down <= up
    decreases up - down
  {
    if down == up then 0 else 1 + Cycles(down + BlockCount(down, up), up)
  }

  function CeilDiv8(n: nat): nat {
    (n + 7) / 8
  }

  /** With nothing appended, a drain takes the blocks up to the ring's end and then the
      blocks after it. */
  lemma {:induction false} DrainCycles(down: nat, up: nat)
    requires down <= up < down + SLOTS
    ensures var a := Min(up - down, SLOTS - down % SLOTS);
            Cycles(down, up) == CeilDiv8(a) + CeilDiv8(up - down - a)
    decreases up - down
  {
    if down < up {
      var n := BlockCount(down, up);
      ModDiff(down, n);
      DrainCycles(down + n, up);
    }
  }

  /** The records in a reply's payload. */
  function Records(buff: seq<Byte>, n: nat): (rs: seq<Rec>)
    requires EVENT_SIZE * n <= |buff|
    ensures |rs| == n
  {
    seq(n, i requires 0 <= i < n => buff[EVENT_SIZE * i..EVENT_SIZE * i + EVENT_SIZE])
  }

  /** Records laid out in memory. */
  function Layout(rs: seq<Rec>): (s: seq<Byte>)
    ensures |s| == EVENT_SIZE * |rs|
  {
    if rs == [] then [] else Layout(rs[..|rs| - 1]) + rs[|rs| - 1]
  }

  lemma {:induction false} RecordsOfLayout(rs: seq<Rec>, junk: seq<Byte>)
    ensures Records(Layout(rs) + junk, |rs|) == rs
    decreases |rs|
  {
    if rs != [] {
      var front, r := rs[..|rs| - 1], rs[|rs| - 1];
      RecordsOfLayout(front, r + junk);
      assert Layout(front) + (r + junk) == Layout(rs) + junk;
      var s := Layout(rs) + junk;
      assert Records(s, |rs|)[..|rs| - 1] == Records(s, |rs| - 1);
      assert Records(s, |rs|)[|rs| - 1] == r;
    }
  }
}
