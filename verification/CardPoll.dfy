/** The card poll (`cb_get_poll_result`, src/gp_processor.c): repeated readings of a
    device's card and event registers become single card actions. What an action does is the
    handler's matter: a card the database knows opens the door, others are reported. */
module CardPoll {
  import opened LibGate

  /** A successful GET_CID. */
  function SeeCid(dev: Dev, cid: nat): Dev {
    if dev.lastCid != cid then dev.(lastCid := cid, newCid := true) else dev
  }

  /** `(ev & ~1)` is 0x02 or 0x04: a new card, or a card the device knows. */
  predicate IsNewCard(ev: Byte) { ev / 2 == 1 }

  predicate IsKnownCard(ev: Byte) { ev / 2 == 2 }

  predicate Changed(dev: Dev, ev: Byte) {
    dev.newCid || dev.lastEv != ev
  }

  /** A successful GET_REGS, apart from what the action itself sets off. */
  function SeeRegs(dev: Dev, ev: Byte): Dev {
    dev.(actions := if Changed(dev, ev) && (IsNewCard(ev) || IsKnownCard(ev))
                    then dev.actions + [CardAction(ev, dev.lastCid)] else dev.actions,
         lastEv := ev, newCid := false)
  }

  // ----- runs of readings -----

  datatype Seen = Cid(cid: nat) | Regs(ev: Byte)

  /** The device's entry after the first `k` observations. */
  function After(dev: Dev, obs: seq<Seen>, k: nat): Dev
    requires k <= |obs|
  {
    if k == 0 then dev
    else match obs[k - 1]
      case Cid(c) => SeeCid(After(dev, obs, k - 1), c)
      case Regs(e) => SeeRegs(After(dev, obs, k - 1), e)
  }

  /** The last card read before observation `k`. */
  function CidBefore(first: nat, obs: seq<Seen>, k: nat): nat
    requires k <= |obs|
  {
    if k == 0 then first
    else if obs[k - 1].Cid? then obs[k - 1].cid else CidBefore(first, obs, k - 1)
  }

  function EvBefore(first: Byte, obs: seq<Seen>, k: nat): Byte
    requires k <= |obs|
  {
    if k == 0 then first
    else if obs[k - 1].Regs? then obs[k - 1].ev else EvBefore(first, obs, k - 1)
  }

  /** Where the observations since the last GET_REGS before `k` begin. */
  function SinceRegs(obs: seq<Seen>, k: nat): (i: nat)
    requires k <= |obs|
    ensures i <= k
  {
    if k == 0 || obs[k - 1].Regs? then k else SinceRegs(obs, k - 1)
  }

  /** Observation `j` read a card other than the one read before it. */
  predicate NewCardAt(first: nat, obs: seq<Seen>, j: nat)
    requires j < |obs|
  {
    obs[j].Cid? && obs[j].cid != CidBefore(first, obs, j)
  }

  ghost predicate NewCardSinceRegs(first: nat, obs: seq<Seen>, k: nat)
    requires k <= |obs|
  {
    exists j :: SinceRegs(obs, k) <= j < k && NewCardAt(first, obs, j)
  }

  /** When an action is due, said over the readings alone. */
  ghost predicate Due(cid0: nat, ev0: Byte, obs: seq<Seen>, k: nat)
    requires k < |obs|
  {
    && obs[k].Regs? && (IsNewCard(obs[k].ev) || IsKnownCard(obs[k].ev))
    && (obs[k].ev != EvBefore(ev0, obs, k) || NewCardSinceRegs(cid0, obs, k))
  }

  ghost function Actions(cid0: nat, ev0: Byte, obs: seq<Seen>, k: nat): seq<CardAction>
    requires k <= |obs|
  {
    if k == 0 then []
    else
      Actions(cid0, ev0, obs, k - 1)
      + (if Due(cid0, ev0, obs, k - 1) then [CardAction(obs[k - 1].ev, CidBefore(cid0, obs, k - 1))] else [])
  }

  /** Over every run of readings the actions taken are exactly those due. */
  lemma {:induction false} ActionsExactlyWhenDue(dev: Dev, obs: seq<Seen>, k: nat)
    requires k <= |obs| && !dev.newCid
    ensures var d := After(dev, obs, k);
            && d.lastCid == CidBefore(dev.lastCid, obs, k)
            && d.lastEv == EvBefore(dev.lastEv, obs, k)
            && (d.newCid <==> NewCardSinceRegs(dev.lastCid, obs, k))
            && d.actions == dev.actions + Actions(dev.lastCid, dev.lastEv, obs, k)
  {
    if k == 0 {
      assert dev.actions + [] == dev.actions;
    } else {
      ActionsExactlyWhenDue(dev, obs, k - 1);
      if obs[k - 1].Cid? {
        assert NewCardAt(dev.lastCid, obs, k - 1) <==> obs[k - 1].cid != CidBefore(dev.lastCid, obs, k - 1);
      }
    }
  }

  /** Steady readings never act again: same event, same card since the last GET_REGS. */
  lemma SteadyReadingsSilent(cid0: nat, ev0: Byte, obs: seq<Seen>, k: nat)
    requires k < |obs| && obs[k].Regs? && obs[k].ev == EvBefore(ev0, obs, k)
    requires forall j :: SinceRegs(obs, k) <= j < k && obs[j].Cid? ==>
               obs[j].cid == CidBefore(cid0, obs, SinceRegs(obs, k))
    ensures !Due(cid0, ev0, obs, k)
  {
    if NewCardSinceRegs(cid0, obs, k) {
      var j :| SinceRegs(obs, k) <= j < k && NewCardAt(cid0, obs, j);
      SameCid(cid0, obs, SinceRegs(obs, k), j);
    }
  }

  lemma {:induction false} SameCid(cid0: nat, obs: seq<Seen>, i: nat, j: nat)
    requires i <= j <= |obs|
    requires forall m :: i <= m < j && obs[m].Cid? ==> obs[m].cid == CidBefore(cid0, obs, i)
    ensures CidBefore(cid0, obs, j) == CidBefore(cid0, obs, i)
    decreases j - i
  {
    if i < j {
      SameCid(cid0, obs, i, j - 1);
    }
  }
}
