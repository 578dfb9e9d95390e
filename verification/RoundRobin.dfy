/** Idle polling (`gp_send_idle`): a round of calls from one zero return to the next visits
    every device once, in ascending order. */
module RoundRobin {
  import opened LibGate
  import opened GpLayer

  /** What one scan does: it passes over exactly the devices whose timeouts are over the
      limit, marks those inactive, and stops at the next one, or past the last. */
  lemma {:induction false} ScanMeans(devices: Devices, pos: DevId, maxDevN: DevId, limit: nat)
    ensures var (ds, p, found) := IdleScan(devices, pos, maxDevN, limit);
            && (found ==> pos < p <= maxDevN && devices[p].timeouts <= limit)
            && (!found ==> p == 0)
            && var last := if found then p else Max(maxDevN, pos) + 1;
            && (forall d :: pos < d < last ==> devices[d].timeouts > limit)
            && (forall d: DevId :: ds[d] == if pos < d < last then devices[d].(active := false) else devices[d])
    decreases maxDevN - pos
  {
    if pos + 1 <= maxDevN && devices[pos + 1].timeouts > limit {
      var next := devices[pos + 1 := devices[pos + 1].(active := false)];
      ScanMeans(next, pos + 1, maxDevN, limit);
      var (ds, p, found) := IdleScan(next, pos + 1, maxDevN, limit);
      assert IdleScan(devices, pos, maxDevN, limit) == (ds, p, found);
      var last := if found then p else maxDevN + 1;
      forall d: DevId
        ensures ds[d] == if pos < d < last then devices[d].(active := false) else devices[d]
      {
        assert ds[d] == if pos + 1 < d < last then next[d].(active := false) else next[d];
      }
    }
  }

  /** A call in a round: the device table it found, and the position it started from. */
  datatype Call = Call(devices: Devices, pos: DevId)

  function Polled(c: Call, maxDevN: DevId, limit: nat): (DevId, bool) {
    var (_, p, found) := IdleScan(c.devices, c.pos, maxDevN, limit);
    (p, found)
  }

  /** Consecutive calls, the table changing freely in between: each starts where the one
      before stopped, all but the last poll a device, and the last returns zero. */
  ghost predicate Round(calls: seq<Call>, maxDevN: DevId, limit: nat)
    decreases calls
  {
    calls != [] &&
    var (p, found) := Polled(calls[0], maxDevN, limit);
    if |calls| == 1 then !found
    else found && calls[1].pos == p && Round(calls[1..], maxDevN, limit)
  }

  /** Call `k` visits device `d`: passes over it or polls it. */
  predicate Visits(calls: seq<Call>, k: nat, d: nat, maxDevN: DevId)
    requires k < |calls|
  {
    calls[k].pos < d <= (if k + 1 < |calls| then calls[k + 1].pos else maxDevN)
  }

  predicate Polls(calls: seq<Call>, k: nat, d: nat, maxDevN: DevId, limit: nat)
    requires k < |calls|
  {
    Polled(calls[k], maxDevN, limit) == (d, true)
  }

  lemma {:induction false} Ascending(calls: seq<Call>, maxDevN: DevId, limit: nat, i: nat, j: nat)
    requires Round(calls, maxDevN, limit) && i < j < |calls|
    ensures calls[i].pos < calls[j].pos <= maxDevN && Polls(calls, i, calls[i + 1].pos, maxDevN, limit)
    decreases |calls|
  {
    ScanMeans(calls[0].devices, calls[0].pos, maxDevN, limit);
    var rest := calls[1..];
    if i > 0 {
      Ascending(rest, maxDevN, limit, i - 1, j - 1);
      assert rest[i - 1] == calls[i] && rest[i] == calls[i + 1];
    } else if j > 1 {
      Ascending(rest, maxDevN, limit, 0, j - 1);
    }
  }

  lemma {:induction false} SomeCallVisits(calls: seq<Call>, maxDevN: DevId, limit: nat, d: nat) returns (k: nat)
    requires Round(calls, maxDevN, limit) && calls[0].pos < d <= maxDevN
    ensures k < |calls| && Visits(calls, k, d, maxDevN)
    decreases |calls|
  {
    if |calls| == 1 || d <= calls[1].pos {
      k := 0;
    } else {
      var j := SomeCallVisits(calls[1..], maxDevN, limit, d);
      k := j + 1;
      assert k + 1 < |calls| ==> calls[1..][j + 1] == calls[k + 1];
    }
  }

  /** Call `k` alone visits device `d`. It polls it exactly when its timeouts are within the
      limit then, and otherwise marks it inactive. */
  ghost predicate OnlyVisit(calls: seq<Call>, k: nat, d: DevId, maxDevN: DevId, limit: nat)
    requires k < |calls|
  {
    && Visits(calls, k, d, maxDevN)
    && (Polls(calls, k, d, maxDevN, limit) <==> calls[k].devices[d].timeouts <= limit)
    && (calls[k].devices[d].timeouts > limit ==>
          !IdleScan(calls[k].devices, calls[k].pos, maxDevN, limit).0[d].active)
    && (forall j :: 0 <= j < |calls| && j != k ==>
          !Visits(calls, j, d, maxDevN) && !Polls(calls, j, d, maxDevN, limit))
  }

  /** In a whole round every device is visited by exactly one call. */
  lemma EachDeviceOnce(calls: seq<Call>, maxDevN: DevId, limit: nat, d: DevId)
    requires Round(calls, maxDevN, limit) && calls[0].pos == 0 && 1 <= d <= maxDevN
    ensures exists k :: 0 <= k < |calls| && OnlyVisit(calls, k, d, maxDevN, limit)
  {
    var k := SomeCallVisits(calls, maxDevN, limit, d);
    CallStops(calls, maxDevN, limit, k);
    forall j | 0 <= j < |calls| && j != k
      ensures !Visits(calls, j, d, maxDevN) && !Polls(calls, j, d, maxDevN, limit)
    {
      OtherCall(calls, maxDevN, limit, d, k, j);
    }
    assert OnlyVisit(calls, k, d, maxDevN, limit);
  }

  lemma CallStops(calls: seq<Call>, maxDevN: DevId, limit: nat, k: nat)
    requires Round(calls, maxDevN, limit) && k < |calls|
    ensures var (p, found) := Polled(calls[k], maxDevN, limit);
            && (k + 1 < |calls| ==> found && p == calls[k + 1].pos)
            && (k + 1 == |calls| ==> !found)
    ensures var (ds, p, found) := IdleScan(calls[k].devices, calls[k].pos, maxDevN, limit);
            forall d: DevId :: Visits(calls, k, d, maxDevN) ==>
              if found && d == p then calls[k].devices[d].timeouts <= limit
              else calls[k].devices[d].timeouts > limit && !ds[d].active
  {
    ScanMeans(calls[k].devices, calls[k].pos, maxDevN, limit);
    if k + 1 < |calls| {
      Ascending(calls, maxDevN, limit, k, k + 1);
    } else {
      LastFails(calls, maxDevN, limit);
    }
  }

  lemma {:induction false} LastFails(calls: seq<Call>, maxDevN: DevId, limit: nat)
    requires Round(calls, maxDevN, limit)
    ensures !Polled(calls[|calls| - 1], maxDevN, limit).1
    decreases |calls|
  {
    if |calls| > 1 {
      LastFails(calls[1..], maxDevN, limit);
    }
  }

  lemma OtherCall(calls: seq<Call>, maxDevN: DevId, limit: nat, d: DevId, k: nat, j: nat)
    requires Round(calls, maxDevN, limit) && k < |calls| && j < |calls| && j != k && Visits(calls, k, d, maxDevN)
    ensures !Visits(calls, j, d, maxDevN) && !Polls(calls, j, d, maxDevN, limit)
  {
    CallStops(calls, maxDevN, limit, j);
    if j < k {
      Ascending(calls, maxDevN, limit, j, k);
      if j + 1 < k {
        Ascending(calls, maxDevN, limit, j + 1, k);
      }
    } else {
      Ascending(calls, maxDevN, limit, k, j);
      if k + 1 < j {
        Ascending(calls, maxDevN, limit, k + 1, j);
      }
      if j + 1 < |calls| {
        Ascending(calls, maxDevN, limit, j, j + 1);
      }
    }
  }
}
