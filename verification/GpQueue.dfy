/** The two-class command queue (src/gp_queue.c). */
module GpQueue {
  import opened LibGate
  import opened AdTarget

  /** `gp_head` and `gp_head2`, front first. */
  datatype Queues = Queues(first: seq<Cmd>, second: seq<Cmd>)

  predicate Empty(q: Queues) {
    q.first == [] && q.second == []
  }

  function InCmd(q: Queues, z: Cmd): Queues {
    if z.queue == First then q.(first := q.first + [z]) else q.(second := q.second + [z])
  }

  function InCmds(q: Queues, zs: seq<Cmd>): Queues
    decreases zs
  {
    if zs == [] then q else InCmds(InCmd(q, zs[0]), zs[1..])
  }

  lemma InCmdsOne(q: Queues, z: Cmd)
    ensures InCmds(q, [z]) == InCmd(q, z)
  {
    assert [z][1..] == [];
  }

  function Head(q: Queues): Cmd
    requires !Empty(q)
  {
    if q.first != [] then q.first[0] else q.second[0]
  }

  function Rest(q: Queues): Queues
    requires !Empty(q)
  {
    if q.first != [] then q.(first := q.first[1..]) else q.(second := q.second[1..])
  }

  /** A command waits in one of the two lists. */
  predicate Waits(q: Queues, z: Cmd) {
    z in q.first || z in q.second
  }

  lemma {:induction false} InCmdsWaits(q: Queues, zs: seq<Cmd>)
    ensures forall z :: Waits(InCmds(q, zs), z) <==> Waits(q, z) || z in zs
    decreases zs
  {
    if zs != [] {
      assert forall z :: z in zs <==> z == zs[0] || z in zs[1..];
      InCmdsWaits(InCmd(q, zs[0]), zs[1..]);
    }
  }

  lemma {:induction false} InCmdsConcat(q: Queues, a: seq<Cmd>, b: seq<Cmd>)
    ensures InCmds(InCmds(q, a), b) == InCmds(q, a + b)
    decreases a
  {
    if a == [] {
      assert a + b == b;
    } else {
      assert (a + b)[1..] == a[1..] + b;
      InCmdsConcat(InCmd(q, a[0]), a[1..], b);
    }
  }

  /** Commands of one class land at the tail of their list in order. */
  lemma {:induction false} InCmdsFirst(q: Queues, zs: seq<Cmd>)
    requires forall k :: 0 <= k < |zs| ==> zs[k].queue == First
    ensures InCmds(q, zs) == q.(first := q.first + zs)
    decreases zs
  {
    if zs == [] {
      assert q.first + zs == q.first;
    } else {
      InCmdsFirst(InCmd(q, zs[0]), zs[1..]);
      assert q.first + [zs[0]] + zs[1..] == q.first + zs;
    }
  }

  /** And so for commands of the second class. */
  lemma {:induction false} InCmdsSecond(q: Queues, zs: seq<Cmd>)
    requires forall k :: 0 <= k < |zs| ==> zs[k].queue == Second
    ensures InCmds(q, zs) == q.(second := q.second + zs)
    decreases zs
  {
    if zs == [] {
      assert q.second + zs == q.second;
    } else {
      InCmdsSecond(InCmd(q, zs[0]), zs[1..]);
      assert q.second + [zs[0]] + zs[1..] == q.second + zs;
    }
  }

  /** The lists as the program holds them. `memcpy` into a fresh entry is the copy a
      command value is; insertion at the tail and removal at the head are in place. */
  class CmdQueue {
    var head: seq<Cmd>
    var head2: seq<Cmd>

    function View(): Queues
      reads this
    {
      Queues(head, head2)
    }

    /** `gp_queue_init`. */
    constructor ()
      ensures View() == Queues([], [])
    {
      head, head2 := [], [];
    }

    method GpInCmd(z: Cmd)
      modifies this
      ensures View() == InCmd(old(View()), z)
    {
      if z.queue == First {
        head := head + [z];
      } else {
        head2 := head2 + [z];
      }
    }

    /** The first half of `gp_put_cmd`: unlinks the entry to send, if any. */
    method Unlink() returns (found: bool, z: Cmd)
      modifies this
      ensures found == !Empty(old(View()))
      ensures found ==> z == Head(old(View())) && View() == Rest(old(View()))
      ensures !found ==> View() == old(View())
    {
      z := Cmd(0, NoHandler, 0, false, Short, 0, 0, []);
      found := true;
      if head != [] {
        z := head[0];
        head := head[1..];
      } else if head2 != [] {
        z := head2[0];
        head2 := head2[1..];
      } else {
        found := false;
      }
    }
  }

  // ----- whole runs -----

  datatype Op = In(z: Cmd) | Put

  /** The queue after some operations, and the commands taken, in order. */
  function Run(ops: seq<Op>): (Queues, seq<Cmd>) {
    if ops == [] then (Queues([], []), [])
    else
      var (q, taken) := Run(ops[..|ops| - 1]);
      match ops[|ops| - 1]
      case In(z) => (InCmd(q, z), taken)
      case Put => if Empty(q) then (q, taken) else (Rest(q), taken + [Head(q)])
  }

  function Enqueued(ops: seq<Op>): seq<Cmd> {
    if ops == [] then []
    else Enqueued(ops[..|ops| - 1]) + (if ops[|ops| - 1].In? then [ops[|ops| - 1].z] else [])
  }

  /** The commands of one class, in order. */
  function OfClass(zs: seq<Cmd>, first: bool): seq<Cmd> {
    if zs == [] then []
    else OfClass(zs[..|zs| - 1], first) +
         (if (zs[|zs| - 1].queue == First) == first then [zs[|zs| - 1]] else [])
  }

  lemma OfClassSnoc(zs: seq<Cmd>, z: Cmd, first: bool)
    ensures OfClass(zs + [z], first)
         == OfClass(zs, first) + (if (z.queue == First) == first then [z] else [])
  {
    assert (zs + [z])[..|zs|] == zs;
  }

  ghost predicate Sorted(q: Queues) {
    (forall z :: z in q.first ==> z.queue == First) && (forall z :: z in q.second ==> z.queue != First)
  }

  /** Taken followed by waiting is enqueued, class by class. */
  ghost predicate Accounted(enqueued: seq<Cmd>, taken: seq<Cmd>, q: Queues) {
    && Sorted(q)
    && OfClass(enqueued, true) == OfClass(taken, true) + q.first
    && OfClass(enqueued, false) == OfClass(taken, false) + q.second
  }

  /** Over every run and for each class, what was taken followed by what still waits is
      exactly what was enqueued: nothing lost, repeated, altered or out of order. */
  lemma {:induction false} ClassFifo(ops: seq<Op>)
    ensures Accounted(Enqueued(ops), Run(ops).1, Run(ops).0)
  {
    if ops != [] {
      var pre := ops[..|ops| - 1];
      ClassFifo(pre);
      var (q, taken) := Run(pre);
      match ops[|ops| - 1] {
        case In(z) => AccountedIn(Enqueued(pre), taken, q, z);
        case Put =>
          assert Enqueued(ops) == Enqueued(pre);
          if !Empty(q) {
            AccountedPut(Enqueued(pre), taken, q);
          }
      }
    }
  }

  lemma AccountedIn(enqueued: seq<Cmd>, taken: seq<Cmd>, q: Queues, z: Cmd)
    requires Accounted(enqueued, taken, q)
    ensures Accounted(enqueued + [z], taken, InCmd(q, z))
  {
    OfClassSnoc(enqueued, z, true);
    OfClassSnoc(enqueued, z, false);
  }

  lemma AccountedPut(enqueued: seq<Cmd>, taken: seq<Cmd>, q: Queues)
    requires !Empty(q) && Accounted(enqueued, taken, q)
    ensures Accounted(enqueued, taken + [Head(q)], Rest(q))
  {
    HeadClass(q);
    OfClassSnoc(taken, Head(q), true);
    OfClassSnoc(taken, Head(q), false);
  }

  lemma HeadClass(q: Queues)
    requires !Empty(q) && Sorted(q)
    ensures Head(q).queue == First <==> q.first != []
    ensures if q.first != [] then q.first == [Head(q)] + Rest(q).first && Rest(q).second == q.second
            else q.second == [Head(q)] + Rest(q).second && Rest(q).first == q.first
    ensures Sorted(Rest(q))
  {
  }

  /** A second-class command is taken only when every first-class command enqueued so far
      has already left. */
  lemma SecondClassWaits(ops: seq<Op>)
    requires var (q, taken) := Run(ops); !Empty(q) && Head(q).queue != First
    ensures OfClass(Enqueued(ops), true) == OfClass(Run(ops).1, true)
  {
    ClassFifo(ops);
    HeadClass(Run(ops).0);
    assert OfClass(Run(ops).1, true) + [] == OfClass(Run(ops).1, true);
  }

  /** What has been enqueued stays the front of what will have been. */
  lemma {:induction false} OfClassPrefix(ops: seq<Op>, k: nat, first: bool)
    requires k <= |ops|
    ensures OfClass(Enqueued(ops[..k]), first) <= OfClass(Enqueued(ops), first)
    decreases |ops|
  {
    if k == |ops| {
      assert ops[..k] == ops;
    } else {
      var front, z := ops[..|ops| - 1], ops[|ops| - 1];
      assert ops[..k] == front[..k];
      OfClassPrefix(front, k, first);
      if z.In? {
        OfClassSnoc(Enqueued(front), z.z, first);
      } else {
        assert Enqueued(ops) == Enqueued(front);
      }
    }
  }

  /** A command for both banks, enqueued as a pair: once the second of the two has left, the
      first has left directly before it among the commands of their class. */
  lemma TwinsLeaveInOrder(ops: seq<Op>, i: nat, z: Cmd)
    requires z.data != [] && i + 1 < |ops|
    requires ops[i] == In(BankPair(z)[0]) && ops[i + 1] == In(BankPair(z)[1])
    ensures var first := z.queue == First;
            var k, left := |OfClass(Enqueued(ops[..i]), first)|, OfClass(Run(ops).1, first);
            |left| > k + 1 ==> left[k..k + 2] == BankPair(z)
  {
    var first := z.queue == First;
    EnqueuedNext(ops, i, BankPair(z)[0], first);
    EnqueuedNext(ops, i + 1, BankPair(z)[1], first);
    OfClassPrefix(ops, i + 2, first);
    TakenIsFront(ops, first);
    PairWithin(OfClass(Run(ops).1, first), OfClass(Enqueued(ops), first), OfClass(Enqueued(ops[..i]), first),
               OfClass(Enqueued(ops[..i + 1]), first), OfClass(Enqueued(ops[..i + 2]), first), BankPair(z));
  }

  lemma TakenIsFront(ops: seq<Op>, first: bool)
    ensures OfClass(Run(ops).1, first) <= OfClass(Enqueued(ops), first)
  {
    ClassFifo(ops);
  }

  lemma EnqueuedNext(ops: seq<Op>, i: nat, z: Cmd, first: bool)
    requires i < |ops| && ops[i] == In(z) && first == (z.queue == First)
    ensures OfClass(Enqueued(ops[..i + 1]), first) == OfClass(Enqueued(ops[..i]), first) + [z]
  {
    assert ops[..i + 1][..i] == ops[..i];
    OfClassSnoc(Enqueued(ops[..i]), z, first);
  }

  /** Two fronts of one sequence agree as far as both go. */
  lemma PairWithin(left: seq<Cmd>, all: seq<Cmd>, w: seq<Cmd>, w1: seq<Cmd>, w2: seq<Cmd>, pair: seq<Cmd>)
    requires |pair| == 2 && w1 == w + [pair[0]] && w2 == w1 + [pair[1]]
    requires left <= all && w2 <= all
    ensures |left| > |w| + 1 ==> left[|w|..|w| + 2] == pair
  {
    if |left| > |w| + 1 {
      assert left[|w|] == all[|w|] == w2[|w|];
      assert left[|w| + 1] == all[|w| + 1] == w2[|w| + 1];
    }
  }

  // ----- a whole drain -----

  /** The order in which a queue empties when nothing is added. */
  function Drain(q: Queues): seq<Cmd>
    decreases |q.first| + |q.second|
  {
    if Empty(q) then [] else [Head(q)] + Drain(Rest(q))
  }

  lemma {:induction false} DrainOrder(q: Queues)
    ensures Drain(q) == q.first + q.second
    decreases |q.first| + |q.second|
  {
    if !Empty(q) {
      DrainOrder(Rest(q));
      assert q.first + q.second == [Head(q)] + (Rest(q).first + Rest(q).second);
    }
  }
}
