/** Replies that change the device table (src/gp_processor.c), said over the fields of their
    payload. */
module ReplyLaws {
  import opened LibGate
  import opened GateState
  import opened GpProcessor
  import opened CardBytes

  /** The four bytes of gp_info_t, low bits first: version and model, the two interface types,
      three bits, the bit that selects a type and four bits, release. */
  predicate IsInfo(buff: Buff, ver: Byte, model: Byte, type1: Byte, type2: Byte, low: Byte, second: bool, high: Byte,
                   release: Byte)
  {
    && ver < 16 && model < 16 && type1 < 16 && type2 < 16 && low < 8 && high < 16
    && buff[0] == ver + 16 * model && buff[1] == type1 + 16 * type2
    && buff[2] == low + (if second then 8 else 0) + 16 * high && buff[3] == release
  }

  /** An information reply turns the device's byte order if and only if the type selected is
      positive, raises its limits if and only if the model is 12 or more, and changes nothing
      else. */
  lemma InfoReplyMeans(g: Gate, r: Reply, ver: Byte, model: Byte, type1: Byte, type2: Byte, low: Byte, second: bool,
                       high: Byte, release: Byte)
    requires g.handler == NoHandler && CmdOf(r) == 0x09
    requires IsInfo(r.buff, ver, model, type1, type2, low, second, high, release)
    ensures var g', dev := ProcessPortInput(g, r, CmdOf(r)).0, g.devices[r.src];
            g' == g.(devices := g.devices[r.src := dev.(
                    revert := (if second then type2 else type1) > 0,
                    tokenLimit := if model >= 12 then 0xFFF0 else dev.tokenLimit,
                    logLimit := if model >= 12 then 0x8000 else dev.logLimit)])
  {
    Nibbles(ver, model, r.buff[0]);
    Nibbles(type1, type2, r.buff[1]);
    SelectBit(low, second, high, r.buff[2]);
  }

  lemma Nibbles(low: nat, high: nat, b: nat)
    requires low < 16 && b == low + 16 * high
    ensures b % 16 == low && b / 16 == high
  {
  }

  lemma SelectBit(low: nat, bit: bool, high: nat, b: nat)
    requires low < 8 && b == low + (if bit then 8 else 0) + 16 * high
    ensures b / 8 % 2 == 1 <==> bit
  {
    assert b / 8 == (if bit then 1 else 0) + 2 * high;
  }

  /** A controller of model 12 with interface type 0: it keeps the straight byte order. */
  lemma StraightReader(g: Gate, r: Reply)
    requires g.handler == NoHandler && CmdOf(r) == 0x09 && r.buff[..4] == [0xC2, 0x10, 0xE1, 0x01]
    ensures !ProcessPortInput(g, r, CmdOf(r)).0.devices[r.src].revert
  {
    var head := r.buff[..4];
    assert r.buff[0] == head[0] && r.buff[1] == head[1] && r.buff[2] == head[2] && r.buff[3] == head[3];
    InfoReplyMeans(g, r, 2, 12, 0, 1, 1, false, 14, 1);
  }

  /** A token bound reply puts the two bytes, big end first, into the device's entry. */
  lemma BoundReplyMeans(g: Gate, r: Reply, bound: Word)
    requires g.handler == NoHandler && CmdOf(r) == 0x04 && g.target == TARGET_GET_TOKEN_BOUND
    requires r.buff[..2] == ToBe16(bound)
    ensures ProcessPortInput(g, r, CmdOf(r)).0
         == g.(devices := g.devices[r.src := g.devices[r.src].(boundToken := bound)])
  {
    assert r.buff[0] == r.buff[..2][0] && r.buff[1] == r.buff[..2][1];
  }

  /** Other replies without a handler change nothing. */
  lemma OtherRepliesIgnored(g: Gate, r: Reply)
    requires g.handler == NoHandler && CmdOf(r) != 0x09
    requires !(CmdOf(r) == 0x04 && g.target == TARGET_GET_TOKEN_BOUND)
    ensures ProcessPortInput(g, r, CmdOf(r)).0 == g
  {
  }

  /** Valid log pointers, up and then down, big end first, are put into the device's entry. */
  lemma PointersStored(g: Gate, r: Reply, up: Word, down: Word)
    requires g.handler == LogHandler && g.target == TARGET_GET_BUFF_ADDR
    requires r.buff[..4] == ToBe16(up) + ToBe16(down) && up <= 0x8000 && down <= 0x8000
    ensures var dev := ProcessPortInput(g, r, CmdOf(r)).0.devices[r.src];
            dev == g.devices[r.src].(boundUp := up, boundDown := down)
  {
    var s := ToBe16(up) + ToBe16(down);
    assert r.buff[0] == r.buff[..4][0] && r.buff[1] == r.buff[..4][1];
    assert r.buff[2] == r.buff[..4][2] && r.buff[3] == r.buff[..4][3];
    assert s == [] + ToBe16(up) + ToBe16(down) && s == ToBe16(up) + ToBe16(down) + [];
    Be16RoundTrip([], up, ToBe16(down));
    Be16RoundTrip(ToBe16(up), down, []);
  }

  /** A card reply of `n` bytes is read as the card whose digits to base 256 they are, big end
      first for a device of turned order and little end first for another. The card counts as
      new if and only if it was already, or another card was read before. */
  lemma CardReplyMeans(g: Gate, r: Reply, n: nat, cid: nat)
    requires g.handler == PollHandler && g.target == TARGET_GET_CID && CmdOf(r) == 0x04
    requires r.len == n <= 8 && cid < Pow256(n)
    requires forall i :: 0 <= i < n ==>
               r.buff[i] == Digit(cid, if g.devices[r.src].revert then n - 1 - i else i)
    ensures var g', dev := ProcessPortInput(g, r, CmdOf(r)).0, g.devices[r.src];
            g'.devices == g.devices[r.src := dev.(lastCid := cid, newCid := dev.newCid || dev.lastCid != cid)]
  {
    DigitsRead(r.buff, n, g.devices[r.src].revert, cid);
  }

  lemma DigitsRead(s: seq<Byte>, n: nat, revert: bool, cid: nat)
    requires n <= 8 && |s| >= n && cid < Pow256(n)
    requires forall i :: 0 <= i < n ==> s[i] == Digit(cid, if revert then n - 1 - i else i)
    ensures Bin2Int(s, n, revert) == cid
  {
    var bytes := Bytes(cid, n);
    forall i | 0 <= i < n
      ensures bytes[i] == Digit(cid, i)
    {
      DigitOfBytes(cid, n, i);
    }
    var t := s[..n];
    if revert {
      assert Reverse(t) == bytes;
    } else {
      assert t == bytes;
    }
    Bin2IntMeaning(s, n, revert);
    ValueOfBytes(cid, n);
    SmallMod(cid, Pow256(n));
  }

  lemma SmallMod(a: nat, m: nat)
    requires a < m
    ensures a % m == a
  {
  }

  /** The digit of weight 256 to the power `i`. */
  function Digit(a: nat, i: nat): Byte {
    if i == 0 then a % 256 else Digit(a / 256, i - 1)
  }

  lemma {:induction false} DigitOfBytes(a: nat, n: nat, i: nat)
    requires i < n
    ensures Bytes(a, n)[i] == Digit(a, i)
  {
    if i > 0 {
      DigitOfBytes(a / 256, n - 1, i - 1);
    }
  }
}
