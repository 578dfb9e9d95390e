/** Byte stuffing (gp_util.c). INIT, END and ESC travel as ESC followed by 1, 2 or 3. */
module Stuffing {
  import opened LibGate
  import opened Memory

  // ----- what stuffing means -----

  predicate Special(b: Byte) {
    b == GP_INIT || b == GP_END || b == GP_ESC
  }

  /** `b & 0xF0`. */
  function HighNibble(b: Byte): (h: Byte)
    ensures Special(b) ==> h == 0xF0
  {
    b / 16 * 16
  }

  function EscByte(b: Byte): (r: seq<Byte>)
    ensures |r| == if Special(b) then 2 else 1
    ensures GP_INIT !in r && GP_END !in r
  {
    if Special(b) then [GP_ESC, EscCode(b)] else [b]
  }

  /** The code that follows ESC in place of a special byte. */
  function EscCode(b: Byte): (c: Byte)
    ensures 1 <= c <= 3
    ensures Special(b) ==> CodeByte(c) == b
  {
    if b == GP_INIT then 1 else if b == GP_END then 2 else 3
  }

  /** The byte a code from 1 to 3 stands for. */
  function CodeByte(c: Byte): Byte {
    if c == 1 then GP_INIT else if c == 2 then GP_END else GP_ESC
  }

  function Esc(s: seq<Byte>): (r: seq<Byte>)
    ensures |r| == |s| + Specials(s)
    ensures GP_INIT !in r && GP_END !in r
  {
    if s == [] then [] else EscByte(s[0]) + Esc(s[1..])
  }

  /** How many bytes of `s` need an escape. */
  function Specials(s: seq<Byte>): (n: nat)
    ensures n <= |s|
  {
    if s == [] then 0 else (if Special(s[0]) then 1 else 0) + Specials(s[1..])
  }

  lemma SeqAssoc(a: seq<Byte>, b: seq<Byte>, c: seq<Byte>)
    ensures a + (b + c) == a + b + c
  {
  }

  lemma {:induction false} EscConcat(a: seq<Byte>, b: seq<Byte>)
    ensures Esc(a + b) == Esc(a) + Esc(b)
  {
    if a == [] {
      assert a + b == b;
    } else {
      EscConcat(a[1..], b);
      assert (a + b)[1..] == a[1..] + b;
      SeqAssoc(EscByte(a[0]), Esc(a[1..]), Esc(b));
    }
  }

  lemma EscSnoc(a: seq<Byte>, b: Byte)
    ensures Esc(a + [b]) == Esc(a) + EscByte(b)
  {
    EscConcat(a, [b]);
    assert Esc([b][1..]) == [];
  }

  lemma EscPrefix(s: seq<Byte>, i: nat)
    requires i < |s|
    ensures Esc(s[..i + 1]) == Esc(s[..i]) + EscByte(s[i])
    ensures |Esc(s[..i + 1])| <= |Esc(s)|
  {
    assert s[..i + 1] == s[..i] + [s[i]];
    EscSnoc(s[..i], s[i]);
    assert s == s[..i + 1] + s[i + 1..];
    EscConcat(s[..i + 1], s[i + 1..]);
  }

  /** One byte of `memcpy_esc`, after `wrote` has been stored at `di`. */
  method EscTurn(d: array<Byte>, b: Byte, ghost before: seq<Byte>, ghost di: nat, ghost wrote: seq<Byte>, k: nat)
    returns (n: nat)
    requires d.Length == |before| && k == di + |wrote| && k + |EscByte(b)| < d.Length
    requires d[..] == Write(before, di, wrote)
    modifies d
    ensures n == |EscByte(b)| && d[..] == Write(before, di, wrote + EscByte(b))
  {
    if HighNibble(b) == 0xF0 && Special(b) {
      assert wrote + [GP_ESC] + [EscCode(b)] == wrote + EscByte(b);
      PutByte(d, GP_ESC, before, di, wrote, k);
      PutByte(d, EscCode(b), before, di, wrote + [GP_ESC], k + 1);
      n := 2;
    } else {
      PutByte(d, b, before, di, wrote, k);
      n := 1;
    }
  }

  /** `memcpy_esc`: stuffs `l` bytes and ends them with a zero byte. */
  method MemcpyEsc(d: array<Byte>, di: nat, s: array<Byte>, si: nat, l: nat) returns (c: nat)
    requires d != s && si + l <= s.Length
    requires di + |Esc(s[si..si + l])| < d.Length
    modifies d
    ensures c == |Esc(s[si..si + l])|
    ensures d[..] == Write(old(d[..]), di, Esc(s[si..si + l]) + [0])
  {
    ghost var src, before := s[si..si + l], d[..];
    ghost var wrote := [];
    var i := 0;
    c := 0;
    WriteNothing(before, di);
    while i < l
      invariant 0 <= i <= l && s[si..si + l] == src
      invariant wrote == Esc(src[..i]) && c == |wrote| <= |Esc(src)|
      invariant d.Length == |before| && d[..] == Write(before, di, wrote)
    {
      EscPrefix(src, i);
      var n := EscTurn(d, s[si + i], before, di, wrote, di + c);
      wrote := wrote + EscByte(src[i]);
      c := c + n;
      i := i + 1;
    }
    assert src[..l] == src;
    PutByte(d, 0, before, di, wrote, di + c);
  }

  // ----- what the decoding loop does -----

  /** The result of a number of loop turns: the bytes written and the escapes met,
      an escape with an unknown code, or a read outside the memory. */
  datatype Scanned =
    | Decoded(out: seq<Byte>, escapes: nat)
    | Broken(out: seq<Byte>)
    | Overrun
  {
    function After(pre: seq<Byte>, e: nat): Scanned {
      match this
      case Decoded(o, n) => Decoded(pre + o, e + n)
      case Broken(o) => Broken(pre + o)
      case Overrun => Overrun
    }
  }

  /** `turns` turns of the loop in `memcpy_unesc`, reading `s` from `i`. A turn consumes
      one byte, or two when the first is ESC. */
  function Scan(s: seq<Byte>, i: nat, turns: nat): (r: Scanned)
    ensures r.Decoded? ==> |r.out| == turns && r.escapes <= turns
    ensures r.Broken? ==> |r.out| < turns
    decreases turns
  {
    if turns == 0 then Decoded([], 0)
    else if i >= |s| then Overrun
    else if s[i] != GP_ESC then Scan(s, i + 1, turns - 1).After([s[i]], 0)
    else if i + 1 >= |s| then Overrun
    else if 1 <= s[i + 1] <= 3 then Scan(s, i + 2, turns - 1).After([CodeByte(s[i + 1])], 1)
    else Broken([])
  }

  lemma AfterAfter(r: Scanned, a: seq<Byte>, m: nat, b: seq<Byte>, n: nat)
    ensures r.After(b, n).After(a, m) == r.After(a + b, m + n)
  {
    if !r.Overrun? {
      assert a + (b + r.out) == (a + b) + r.out;
    }
  }

  /** What `memcpy_unesc` returns for a length and the outcome of its turns. */
  function UnescLength(len: int, r: Scanned): int {
    match r
    case Decoded(_, e) => len - e
    case _ => 0
  }

  /** The destination afterwards. */
  function UnescMemory(mem: seq<Byte>, di: nat, r: Scanned): seq<Byte>
    requires r.Decoded? ==> di + |r.out| < |mem|
    requires r.Broken? ==> di + |r.out| <= |mem|
  {
    match r
    case Decoded(o, _) => Write(mem, di, o + [0])
    case Broken(o) => Write(mem, di, o)
    case Overrun => mem
  }

  /** A turn can be taken at `p`: its bytes are there and its code is known. */
  predicate Known(s: seq<Byte>, p: nat) {
    p < |s| && (s[p] == GP_ESC ==> p + 1 < |s| && 1 <= s[p + 1] <= 3)
  }

  predicate Unknown(s: seq<Byte>, p: nat) {
    p + 1 < |s| && s[p] == GP_ESC && !(1 <= s[p + 1] <= 3)
  }

  /** The byte such a turn writes, and how many it reads. */
  function Unit(s: seq<Byte>, p: nat): Byte
    requires Known(s, p)
  {
    if s[p] == GP_ESC then CodeByte(s[p + 1]) else s[p]
  }

  function UnitSize(s: seq<Byte>, p: nat): nat
    requires Known(s, p)
  {
    if s[p] == GP_ESC then 2 else 1
  }

  /** `wrote` has been written and `e` escapes met; the rest of `all` takes `turns` more
      turns from `p`. */
  predicate Remains(all: Scanned, s: seq<Byte>, p: nat, turns: nat, wrote: seq<Byte>, e: nat) {
    all == Scan(s, p, turns).After(wrote, e)
  }

  /** One turn: a known code goes on behind what is written, an unknown one ends the loop. */
  lemma ScanTurn(all: Scanned, s: seq<Byte>, p: nat, turns: nat, wrote: seq<Byte>, e: nat)
    requires turns > 0 && !all.Overrun? && Remains(all, s, p, turns, wrote, e)
    ensures Known(s, p) || Unknown(s, p)
    ensures Known(s, p) ==>
              Remains(all, s, p + UnitSize(s, p), turns - 1, wrote + [Unit(s, p)], e + UnitSize(s, p) - 1)
    ensures Unknown(s, p) ==> all == Broken(wrote)
  {
    if Known(s, p) {
      AfterAfter(Scan(s, p + UnitSize(s, p), turns - 1), wrote, e, [Unit(s, p)], UnitSize(s, p) - 1);
    } else {
      assert wrote + [] == wrote;
    }
  }

  lemma ScanDone(all: Scanned, s: seq<Byte>, p: nat, wrote: seq<Byte>, e: nat)
    requires Remains(all, s, p, 0, wrote, e)
    ensures all == Decoded(wrote, e)
  {
    assert wrote + [] == wrote;
  }

  /** The reading half of a turn: the byte to write, if its code is known, and the next
      read position. */
  method Turn(s: array<Byte>, p: nat) returns (known: bool, b: Byte, next: nat)
    requires Known(s[..], p) || Unknown(s[..], p)
    ensures known == Known(s[..], p)
    ensures known ==> b == Unit(s[..], p) && next == p + UnitSize(s[..], p)
  {
    known, b, next := true, s[p], p + 1;
    if b == GP_ESC {
      next := p + 2;
      if s[p + 1] == 1 {
        b := GP_INIT;
      } else if s[p + 1] == 2 {
        b := GP_END;
      } else if s[p + 1] == 3 {
        b := GP_ESC;
      } else {
        known := false;
      }
    }
  }

  /** Source and destination, one buffer or two, after `wrote` has been stored at `di`. */
  ghost predicate Halfway(s: seq<Byte>, d: seq<Byte>, src: seq<Byte>, before: seq<Byte>, one: bool,
                          di: nat, wrote: seq<Byte>)
    requires di + |wrote| <= |before|
  {
    d == Write(before, di, wrote) && (if one then src == before && s == d else s == src)
  }

  /** A turn: reads at `p`, and writes unless the code is unknown. */
  method UnescTurn(d: array<Byte>, di: nat, s: array<Byte>, p: nat, i: nat,
                   ghost src: seq<Byte>, ghost before: seq<Byte>, ghost wrote: seq<Byte>)
    returns (known: bool, next: nat)
    requires i == |wrote| && di + i < d.Length == |before| && (d == s ==> di + i <= p)
    requires Halfway(s[..], d[..], src, before, s == d, di, wrote) && (Known(src, p) || Unknown(src, p))
    modifies d
    ensures known == Known(src, p)
    ensures known ==> next == p + UnitSize(src, p)
    ensures Halfway(s[..], d[..], src, before, s == d, di, if known then wrote + [Unit(src, p)] else wrote)
  {
    SameAhead(s[..], src, di, wrote, p);
    var b;
    known, b, next := Turn(s, p);
    if known {
      PutByte(d, b, before, di, wrote, di + i);
    }
  }

  /** `memcpy_unesc`. Source and destination may be one buffer, as long as the
      destination does not start after the source. */
  method MemcpyUnesc(d: array<Byte>, di: nat, s: array<Byte>, si: nat, len: int) returns (l: int)
    requires d == s ==> di <= si
    requires di + Max(len, 0) < d.Length
    requires !Scan(s[..], si, Max(len, 0)).Overrun?
    modifies d
    ensures l == UnescLength(len, Scan(old(s[..]), si, Max(len, 0)))
    ensures d[..] == UnescMemory(old(d[..]), di, Scan(old(s[..]), si, Max(len, 0)))
  {
    ghost var src, before := s[..], d[..];
    ghost var left: nat, wrote: seq<Byte>, e: nat := Max(len, 0), [], 0;
    ghost var all := Scan(src, si, left);
    var i, p := 0, si;
    l := len;
    AfterNothing(all);
    WriteNothing(before, di);
    while i < len
      invariant left == Max(len, 0) - i && |wrote| == i && p >= si + i && l == len - e
      invariant Remains(all, src, p, left, wrote, e)
      invariant Halfway(s[..], d[..], src, before, s == d, di, wrote)
    {
      ScanTurn(all, src, p, left, wrote, e);
      var known, next := UnescTurn(d, di, s, p, i, src, before, wrote);
      if !known {
        return 0;
      }
      left, wrote, e := left - 1, wrote + [Unit(src, p)], e + UnitSize(src, p) - 1;
      l := l - (next - p - 1);
      p := next;
      i := i + 1;
    }
    ScanDone(all, src, p, wrote, e);
    PutByte(d, 0, before, di, wrote, di + i);
  }

  /** Writing behind the read position does not change what the next turn reads. */
  lemma SameAhead(now: seq<Byte>, src: seq<Byte>, at: nat, w: seq<Byte>, p: nat)
    requires now == src || (at + |w| <= |src| && at + |w| <= p && now == Write(src, at, w))
    ensures Known(now, p) == Known(src, p) && Unknown(now, p) == Unknown(src, p)
    ensures Known(src, p) ==> Unit(now, p) == Unit(src, p) && UnitSize(now, p) == UnitSize(src, p)
  {
    assert p < |src| ==> now[p] == src[p];
    assert p + 1 < |src| ==> now[p + 1] == src[p + 1];
  }

  lemma AfterNothing(r: Scanned)
    ensures r.After([], 0) == r
  {
    assert r.Overrun? || [] + r.out == r.out;
  }

  // ----- decoding undoes stuffing -----

  /** Turns over a stuffed string first give the string back, one byte a turn. */
  lemma {:induction false} ScanEsc(x: seq<Byte>, tail: seq<Byte>, extra: nat)
    ensures Scan(Esc(x) + tail, 0, |x| + extra) == Scan(tail, 0, extra).After(x, Specials(x))
  {
    var r := Scan(tail, 0, extra);
    if x == [] {
      assert Esc(x) + tail == tail;
      AfterNothing(r);
    } else {
      var b, y := x[0], x[1..];
      SeqAssoc(EscByte(b), Esc(y), tail);
      ScanEscByte(b, Esc(y) + tail, |y| + extra);
      ScanEsc(y, tail, extra);
      AfterAfter(r, [b], if Special(b) then 1 else 0, y, Specials(y));
      assert [b] + y == x;
    }
  }

  lemma ScanEscByte(b: Byte, rest: seq<Byte>, turns: nat)
    ensures Scan(EscByte(b) + rest, 0, turns + 1)
         == Scan(rest, 0, turns).After([b], if Special(b) then 1 else 0)
  {
    var w := EscByte(b);
    assert (w + rest)[0] == w[0];
    ScanShift(w, rest, |w|, turns);
  }

  /** Bytes before the read position do not matter. */
  lemma {:induction false} ScanShift(pre: seq<Byte>, s: seq<Byte>, i: nat, turns: nat)
    requires i >= |pre|
    ensures Scan(pre + s, i, turns) == Scan(s, i - |pre|, turns)
    decreases turns
  {
    if turns > 0 {
      ScanShift(pre, s, i + 1, turns - 1);
      ScanShift(pre, s, i + 2, turns - 1);
    }
  }

  /** Turns over bytes without ESC copy them. */
  lemma {:induction false} ScanPlain(s: seq<Byte>, i: nat, turns: nat)
    requires i + turns <= |s| && GP_ESC !in s[i..i + turns]
    ensures Scan(s, i, turns) == Decoded(s[i..i + turns], 0)
    decreases turns
  {
    if turns > 0 {
      assert s[i] == s[i..i + turns][0];
      assert s[i + 1..i + turns] == s[i..i + turns][1..];
      ScanPlain(s, i + 1, turns - 1);
      assert s[i..i + turns] == [s[i]] + s[i + 1..i + turns];
    }
  }

  /** An ESC among the next `turns` bytes is always met. */
  lemma {:induction false} ScanMeetsEsc(s: seq<Byte>, i: nat, turns: nat)
    requires i + turns <= |s| && GP_ESC in s[i..i + turns]
    ensures var r := Scan(s, i, turns); r.Decoded? ==> r.escapes > 0
    decreases turns
  {
    if s[i] != GP_ESC {
      assert s[i..i + turns] == [s[i]] + s[i + 1..i + turns];
      ScanMeetsEsc(s, i + 1, turns - 1);
    }
  }

  /** The main law, as the loop really behaves. Decoding a stuffed string of `x` runs
      `Specials(x)` turns too many, over the bytes `tail` that follow it. The bytes of
      `x` always come out first; the returned length is right exactly when none of the
      bytes those extra turns may read is an ESC. */
  lemma UnescUndoesEsc(x: seq<Byte>, tail: seq<Byte>)
    requires |tail| >= Specials(x)
    ensures Recovers(Scan(Esc(x) + tail, 0, |Esc(x)|), |Esc(x)|, x, GP_ESC !in tail[..Specials(x)])
  {
    ScanStuffed(x, tail);
    ExtraTurns(x, tail, Specials(x));
  }

  /** One turn for every stuffed byte is one too many for every escape. */
  lemma ScanStuffed(x: seq<Byte>, tail: seq<Byte>)
    ensures Scan(Esc(x) + tail, 0, |Esc(x)|) == Scan(tail, 0, Specials(x)).After(x, Specials(x))
  {
    var n := |Esc(x)|;
    assert n == |x| + Specials(x);
    ScanEsc(x, tail, Specials(x));
  }

  /** Of a decoded region of `len` bytes: what came out starts with `x`, and the
      length `memcpy_unesc` returns is that of `x` if and only if `clean`. */
  predicate Recovers(r: Scanned, len: nat, x: seq<Byte>, clean: bool) {
    && (!r.Overrun? ==> x <= r.out)
    && (UnescLength(len, r) == |x| && !r.Overrun? <==> clean)
  }

  /** The extra turns for `e` escapes behind `x`. */
  lemma ExtraTurns(x: seq<Byte>, tail: seq<Byte>, e: nat)
    requires |tail| >= e && (x == [] ==> e == 0)
    ensures Recovers(Scan(tail, 0, e).After(x, e), |x| + e, x, GP_ESC !in tail[..e])
  {
    var rest := Scan(tail, 0, e);
    assert !rest.Overrun? ==> x <= x + rest.out;
    assert tail[0..e] == tail[..e];
    if GP_ESC !in tail[..e] {
      ScanPlain(tail, 0, e);
    } else {
      ScanMeetsEsc(tail, 0, e);
    }
  }

  /** The condition can fail: with three escapes and a stale ESC two bytes after the
      frame's end, the length comes out one short. */
  lemma StaleEscShortensFrame()
    ensures var x := [GP_ESC, GP_ESC, GP_ESC];
            var tail := [GP_END, 0, GP_ESC, 3];
            var r := Scan(Esc(x) + tail, 0, |Esc(x)|);
            r.Decoded? && UnescLength(|Esc(x)|, r) == 2
  {
    var x, tail := [GP_ESC, GP_ESC, GP_ESC], [GP_END, 0, GP_ESC, 3];
    assert Specials(x) == 3 by {
      assert x[1..] == [GP_ESC, GP_ESC] && x[1..][1..] == [GP_ESC] && x[1..][1..][1..] == [];
      assert Specials(x[1..][1..]) == 1;
    }
    ScanEsc(x, tail, 3);
    assert Scan(tail, 2, 1) == Scan(tail, 4, 0).After([GP_ESC], 1);
    assert Scan(tail, 1, 2) == Scan(tail, 2, 1).After([0], 0);
    assert Scan(tail, 0, 3) == Scan(tail, 1, 2).After([GP_END], 0);
  }
}
