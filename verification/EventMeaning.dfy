/** What the events handed to the application say: each is a record that has just been run, with
    its own address, the card that address was mapped to then, and the number of repeats before
    it in its block (src/gp_processor.c). */
module EventMeaning {
  import opened LibGate
  import opened GateState
  import opened AdTarget
  import opened LogRing
  import opened GpProcessor
  import opened GpLayer
  import opened Housekeeping
  import opened LineSystem
  import opened LogDrain

  /** The record before number `j` of a block that follows `prev`. */
  function Before(prev: Rec, rs: seq<Rec>, j: nat): Rec
    requires j <= |rs|
  {
    if j == 0 then prev else rs[j - 1]
  }

  /** Record `j` has the event code and address of the one before it. */
  predicate Repeated(prev: Rec, rs: seq<Rec>, j: nat)
    requires j < |rs|
  {
    var r, b := rs[j], Before(prev, rs, j);
    r[0] == b[0] && r[1] == b[1] && r[2] == b[2]
  }

  /** How many of the first `j` are repeats. */
  function RepeatsUpTo(prev: Rec, rs: seq<Rec>, j: nat): nat
    requires j <= |rs|
  {
    if j == 0 then 0 else RepeatsUpTo(prev, rs, j - 1) + (if Repeated(prev, rs, j - 1) then 1 else 0)
  }

  /** The two address bytes, big end first. */
  function AddrIn(r: Rec): nat {
    var hi: nat, lo: nat := r[1], r[2];
    256 * hi + lo
  }

  lemma AddrOfLayout(code: Byte, a: Word, date: seq<Byte>)
    requires |date| == 5
    ensures AddrIn([code] + ToBe16(a) + date) == a
  {
  }

  /** The card an address is mapped to, or none. */
  function CardAt(mapping: map<nat, nat>, a: nat): nat {
    if a in mapping then mapping[a] else 0
  }

  /** An event says of record `j` of a block what the source promises. */
  predicate SaysOf(e: Event, prev: Rec, rs: seq<Rec>, j: nat, mapping: map<nat, nat>)
    requires j < |rs|
  {
    && e.rec == rs[j] && !Repeated(prev, rs, j)
    && e.addr == AddrIn(rs[j]) && e.cid == CardAt(mapping, AddrIn(rs[j])) && e.dup == RepeatsUpTo(prev, rs, j)
  }

  ghost predicate TrueOf(e: Event, prev: Rec, rs: seq<Rec>, mapping: map<nat, nat>) {
    exists j :: 0 <= j < |rs| && SaysOf(e, prev, rs, j, mapping)
  }

  function EventFor(prev: Rec, rs: seq<Rec>, j: nat, mapping: map<nat, nat>): Event
    requires j < |rs|
  {
    Event(rs[j], AddrIn(rs[j]), CardAt(mapping, AddrIn(rs[j])), RepeatsUpTo(prev, rs, j))
  }

  /** The events of the first `j` records of a block. */
  function EventsUpTo(prev: Rec, rs: seq<Rec>, j: nat, mapping: map<nat, nat>): seq<Event>
    requires j <= |rs|
  {
    if j == 0 then []
    else
      EventsUpTo(prev, rs, j - 1, mapping) +
      (if Repeated(prev, rs, j - 1) then [] else [EventFor(prev, rs, j - 1, mapping)])
  }

  lemma {:induction false} AllSaid(prev: Rec, rs: seq<Rec>, j: nat, mapping: map<nat, nat>)
    requires j <= |rs|
    ensures forall k :: 0 <= k < |EventsUpTo(prev, rs, j, mapping)| ==>
              TrueOf(EventsUpTo(prev, rs, j, mapping)[k], prev, rs, mapping)
  {
    if j > 0 {
      AllSaid(prev, rs, j - 1, mapping);
      if !Repeated(prev, rs, j - 1) {
        assert SaysOf(EventFor(prev, rs, j - 1, mapping), prev, rs, j - 1, mapping);
      }
    }
  }

  // ----- the loop does that -----

  lemma NoRecordsRun(dev: Dev, db: DbLayer.Db)
    ensures AfterRecords(dev, db, []) == dev
  {
    assert dev.stream + [] == dev.stream && dev.events + ToEvents(db, []) == dev.events;
  }

  lemma SameKey(a: Rec, b: Rec)
    ensures Key(a) == Key(b) <==> a[0] == b[0] && a[1] == b[1] && a[2] == b[2]
  {
    assert Key(a) == [a[0], a[1], a[2]] && Key(b) == [b[0], b[1], b[2]];
  }

  /** Where the loop stands after `j` records, for a device whose last kept record has the key of
      the one before the block. */
  predicate Standing(dev: Dev, prev: Rec, rs: seq<Rec>, j: nat, db: DbLayer.Db, d: Dev, c: nat)
    requires j <= |rs|
  {
    && d.events == dev.events + EventsUpTo(prev, rs, j, db.mapping)
    && Key(d.lastRec) == Key(Before(prev, rs, j)) && c == RepeatsUpTo(prev, rs, j)
  }

  lemma {:induction false} LoopStands(dev: Dev, prev: Rec, rs: seq<Rec>, j: nat, db: DbLayer.Db)
    requires j <= |rs| && Key(dev.lastRec) == Key(prev)
    ensures Standing(dev, prev, rs, j, db, AfterRecords(dev, db, rs[..j]), Repeats(dev.lastRec, rs[..j]))
  {
    if j == 0 {
      assert rs[..0] == [] && dev.events + [] == dev.events;
      NoRecordsRun(dev, db);
    } else {
      LoopStands(dev, prev, rs, j - 1, db);
      assert rs[..j] == rs[..j - 1] + [rs[j - 1]];
      AfterOneMore(dev, db, rs[..j - 1], rs[j - 1]);
      ReportedSnoc(dev.lastRec, rs[..j - 1], rs[j - 1], 0);
      OneMoreStands(dev, prev, rs, j - 1, db, AfterRecords(dev, db, rs[..j - 1]), Repeats(dev.lastRec, rs[..j - 1]));
    }
  }

  lemma OneMoreStands(dev: Dev, prev: Rec, rs: seq<Rec>, j: nat, db: DbLayer.Db, d: Dev, c: nat)
    requires j < |rs| && Standing(dev, prev, rs, j, db, d, c)
    ensures var again, r := Key(rs[j]) == Key(d.lastRec), rs[j];
            Standing(dev, prev, rs, j + 1, db,
                     if again then d.(stream := d.stream + [r])
                     else d.(lastRec := r, stream := d.stream + [r], events := d.events + [ToEvent(db, r, c)]),
                     if again then c + 1 else c)
  {
    SameKey(rs[j], Before(prev, rs, j));
    var more := EventsUpTo(prev, rs, j, db.mapping);
    if Repeated(prev, rs, j) {
      assert more + [] == more;
    } else {
      assert ToEvent(db, rs[j], c) == EventFor(prev, rs, j, db.mapping);
      assert dev.events + more + [EventFor(prev, rs, j, db.mapping)]
          == dev.events + (more + [EventFor(prev, rs, j, db.mapping)]);
    }
  }

  // ----- every step -----

  /** The step has run the records `rs` of device `d`, and reported exactly what they say. */
  ghost predicate Reported(dev: Dev, dev': Dev, rs: seq<Rec>, mapping: map<nat, nat>) {
    && dev'.stream == dev.stream + rs
    && dev'.events == dev.events + EventsUpTo(LastOf(ZERO_REC, dev.stream), rs, |rs|, mapping)
  }

  lemma BlockReported(dev: Dev, rs: seq<Rec>, db: DbLayer.Db, dev': Dev)
    requires ReportsCollapse(dev) && SameReports(AfterRecords(dev, db, rs), dev')
    ensures Reported(dev, dev', rs, db.mapping)
  {
    LoopStands(dev, LastOf(ZERO_REC, dev.stream), rs, |rs|, db);
    assert rs[..|rs|] == rs;
  }

  lemma NothingReported(dev: Dev, dev': Dev, mapping: map<nat, nat>)
    requires SameReports(dev, dev')
    ensures Reported(dev, dev', [], mapping)
  {
    assert dev.stream + [] == dev.stream && dev.events + [] == dev.events;
  }

  lemma RunAlike(a: Dev, b: Dev, db: DbLayer.Db, rs: seq<Rec>)
    requires SameReports(a, b)
    ensures SameReports(AfterRecords(a, db, rs), AfterRecords(b, db, rs))
  {
  }

  /** What a reply reports: a block's records for its own device under the log handler, and
      nothing else. */
  predicate IsBlock(g: Gate, r: Reply) {
    && r.src == g.dev && g.handler == LogHandler && g.target == TARGET_GET_BUFF_DATA
    && (IsAck(r) || !IsReplyFrame(r))
  }

  lemma FrameRuns(g: Gate, r: Reply, d: DevId)
    ensures SameReports(if IsBlock(g, r) && d == r.src
                        then AfterRecords(g.devices[d], g.db, Records(r.buff, RecordCount(r))) else g.devices[d],
                        FrameIn(g, r).devices[d])
  {
    var g1 := ReadStart(g);
    ReadStartTidy(g);
    assert SameLog(g.devices[d], g1.devices[d]);
    RunAlike(g.devices[d], g1.devices[d], g.db, Records(r.buff, RecordCount(r)));
    DispatchRuns(g1, r, d);
  }

  lemma DispatchRuns(g: Gate, r: Reply, d: DevId)
    ensures SameReports(if IsBlock(g, r) && d == r.src
                        then AfterRecords(g.devices[d], g.db, Records(r.buff, RecordCount(r))) else g.devices[d],
                        Dispatch(g, r).devices[d])
  {
    if r.src == g.dev && (IsAck(r) || !IsReplyFrame(r)) {
      if g.handler == LogHandler {
        LogRuns(g, r, d);
      } else {
        QuietlyHandled(g, r, d);
      }
    }
  }

  lemma LogRuns(g: Gate, r: Reply, d: DevId)
    requires g.handler == LogHandler
    ensures SameReports(if g.target == TARGET_GET_BUFF_DATA && d == r.src
                        then AfterRecords(g.devices[d], g.db, Records(r.buff, RecordCount(r))) else g.devices[d],
                        CbLogRead(g, r).0.devices[d])
  {
  }

  lemma QuietlyHandled(g: Gate, r: Reply, d: DevId)
    requires g.handler != LogHandler
    ensures SameReports(g.devices[d], ProcessPortInput(g, r, CmdOf(r)).0.devices[d])
  {
    if g.handler == PollHandler && g.target == TARGET_GET_REGS && CmdOf(r) == CMD_REGS {
      PollRegsTidy(g, r);
      assert SameLog(g.devices[d], CbGetPollResult(g, r, CMD_REGS).0.devices[d]);
    }
  }

  lemma StepReported(s: Sys, st: Step, d: DevId) returns (rs: seq<Rec>)
    requires Inv(s) && Enabled(s, st)
    ensures Reported(s.g.devices[d], Apply(s, st).g.devices[d], rs, s.g.db.mapping)
  {
    var dev, dev' := s.g.devices[d], Apply(s, st).g.devices[d];
    rs := [];
    if st.Deliver? {
      var r := Cut(s.line[0].r, st.missing);
      FrameRuns(s.g, r, d);
      if IsBlock(s.g, r) && d == r.src {
        rs := Records(r.buff, RecordCount(r));
        assert LogOk(s.logs[d], dev);
        BlockReported(dev, rs, s.g.db, dev');
        return;
      }
    } else {
      OtherStepReports(s, st, d);
    }
    NothingReported(dev, dev', s.g.db.mapping);
  }

  lemma OtherStepReports(s: Sys, st: Step, d: DevId)
    requires Inv(s) && Enabled(s, st) && !st.Deliver?
    ensures SameReports(s.g.devices[d], Apply(s, st).g.devices[d])
  {
    match st
    case Reject => ReadStartTidy(s.g);
                   assert SameLog(s.g.devices[d], ReadStart(s.g).devices[d]);
    case Part => ReadStartTidy(s.g);
                 assert SameLog(s.g.devices[d], ReadStart(s.g).devices[d]);
    case Tick(due) => TimerQuiet(s.g, due);
    case App(c) => CallTidy(s.g, c);
                   assert SameLog(s.g.devices[d], AppStep(s.g, c).devices[d]);
    case _ =>
  }

  // ----- every run -----

  /** Event `k` of a device was handed over by step `i` of a run, and is true of one of the
      records that step has run, with the database as it was. */
  ghost predicate HandedOver(s: Sys, steps: seq<Step>, d: DevId, k: nat, i: nat)
    requires Legal(s, steps)
  {
    && i < |steps| && Legal(s, steps[..i]) && k < |LineSystem.Run(s, steps).g.devices[d].events|
    && Enabled(LineSystem.Run(s, steps[..i]), steps[i])
    && ByStep(LineSystem.Run(s, steps[..i]), steps[i], d, k, LineSystem.Run(s, steps).g.devices[d].events[k])
  }

  ghost predicate ByStep(s: Sys, st: Step, d: DevId, k: nat, e: Event)
    requires Enabled(s, st)
  {
    var dev, dev' := s.g.devices[d], Apply(s, st).g.devices[d];
    && |dev.events| <= k < |dev'.events| && |dev.stream| <= |dev'.stream| && dev'.events[k] == e
    && TrueOf(e, LastOf(ZERO_REC, dev.stream), dev'.stream[|dev.stream|..], s.g.db.mapping)
  }

  lemma {:induction false} EventsKept(s: Sys, steps: seq<Step>, d: DevId)
    requires Inv(s) && Legal(s, steps)
    ensures s.g.devices[d].events <= LineSystem.Run(s, steps).g.devices[d].events
    decreases steps
  {
    if steps != [] {
      var rs := StepReported(s, steps[0], d);
      StepInv(s, steps[0]);
      EventsKept(Apply(s, steps[0]), steps[1..], d);
    }
  }

  lemma {:induction false} HandedOverBy(s: Sys, steps: seq<Step>, d: DevId, k: nat) returns (i: nat)
    requires Inv(s) && Legal(s, steps)
    requires |s.g.devices[d].events| <= k < |LineSystem.Run(s, steps).g.devices[d].events|
    ensures HandedOver(s, steps, d, k, i)
    decreases steps
  {
    var s1 := Apply(s, steps[0]);
    StepInv(s, steps[0]);
    if k < |s1.g.devices[d].events| {
      i := 0;
      HandedNow(s, steps, d, k);
    } else {
      var j := HandedOverBy(s1, steps[1..], d, k);
      i := j + 1;
      HandedLater(s, steps, d, k, j);
    }
  }

  lemma HandedNow(s: Sys, steps: seq<Step>, d: DevId, k: nat)
    requires Inv(s) && steps != [] && Legal(s, steps)
    requires |s.g.devices[d].events| <= k < |Apply(s, steps[0]).g.devices[d].events|
    ensures HandedOver(s, steps, d, k, 0)
  {
    ByThisStep(s, steps[0], d, k);
    StepInv(s, steps[0]);
    EventsKept(Apply(s, steps[0]), steps[1..], d);
    assert steps[..0] == [];
  }

  lemma ByThisStep(s: Sys, st: Step, d: DevId, k: nat)
    requires Inv(s) && Enabled(s, st)
    requires |s.g.devices[d].events| <= k < |Apply(s, st).g.devices[d].events|
    ensures ByStep(s, st, d, k, Apply(s, st).g.devices[d].events[k])
  {
    var rs := StepReported(s, st, d);
    AllSaid(LastOf(ZERO_REC, s.g.devices[d].stream), rs, |rs|, s.g.db.mapping);
    assert Apply(s, st).g.devices[d].stream[|s.g.devices[d].stream|..] == rs;
  }

  lemma HandedLater(s: Sys, steps: seq<Step>, d: DevId, k: nat, j: nat)
    requires steps != [] && Legal(s, steps) && HandedOver(Apply(s, steps[0]), steps[1..], d, k, j)
    ensures HandedOver(s, steps, d, k, j + 1)
  {
    assert steps[..j + 1][1..] == steps[1..][..j] && steps[..j + 1][0] == steps[0];
  }

  /** Over every run from the start, every event in the history of a device was handed over by
      some step: it is one of the records that step ran for the device and no repeat of the one
      before it, its address is the record's, its card is what that address was mapped to then,
      and its `dup` is the number of repeats before it in the block. */
  lemma EventsAreTrue(s: Sys, steps: seq<Step>, d: DevId, k: nat) returns (i: nat)
    requires Init(s) && Legal(s, steps) && k < |LineSystem.Run(s, steps).g.devices[d].events|
    ensures HandedOver(s, steps, d, k, i)
  {
    InitInv(s);
    assert s.g.devices[d] == FreshDev(d);
    i := HandedOverBy(s, steps, d, k);
  }
}
