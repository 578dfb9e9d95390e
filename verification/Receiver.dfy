/** The byte side of `gp_receiv`: gathering reads into the buffer until a frame is
    complete, then decoding it in place (src/gp_layer.c). */
module Receiver {
  import opened LibGate
  import opened Crc8
  import opened Memory
  import opened Stuffing
  import opened Frames

  /** How much memory from `receiv_mess.buf` on the model keeps. The buffer itself is the
      first READ_BUF_LENGTH bytes; the decoding loop can read past it. */
  const MEMORY: nat := 270

  /** `receiv_buf_p`. */
  datatype Cursor = Null | At(i: nat)

  datatype RecvState = RecvState(mem: seq<Byte>, pos: Cursor, len: int)

  /** What one read leads to: no INIT in front, more to come, or a frame with its END at
      `end` of the buffer. */
  datatype Gathered = BadBegin(st: RecvState) | Partial(st: RecvState) | Whole(mem: seq<Byte>, end: nat)

  /** What the check of a whole frame says; `Good` carries the length from id_ctrl on. */
  datatype Verdict = BadCrc | Good(n: int)

  /** The reassembly invariant. */
  predicate Valid(st: RecvState) {
    && |st.mem| == MEMORY
    && (st.pos.At? ==>
          && st.pos.i == st.len < READ_BUF_LENGTH
          && (st.len > 0 ==> st.mem[0] == GP_INIT)
          && GP_END !in st.mem[..st.len])
  }

  /** How far the buffer is filled when a read starts. */
  function Filled(st: RecvState): nat {
    if st.pos.At? then st.pos.i else 0
  }

  /** The position of the first END, or the length. */
  function FindEnd(s: seq<Byte>): (k: nat)
    ensures k <= |s| && GP_END !in s[..k]
    ensures k < |s| ==> s[k] == GP_END
    ensures k == |s| <==> GP_END !in s
  {
    if s == [] || s[0] == GP_END then 0
    else
      assert forall k: nat :: k <= |s| - 1 ==> s[..k + 1] == [s[0]] + s[1..][..k];
      1 + FindEnd(s[1..])
  }

  lemma {:induction false} ScanFits(s: seq<Byte>, i: nat, turns: nat)
    requires i + 2 * turns <= |s|
    ensures !Scan(s, i, turns).Overrun?
    decreases turns
  {
    if turns > 0 {
      ScanFits(s, i + 1, turns - 1);
      ScanFits(s, i + 2, turns - 1);
    }
  }

  /** One read that gives something. */
  function Gather(st: RecvState, chunk: seq<Byte>): Gathered
    requires Valid(st) && 0 < |chunk| && Filled(st) + |chunk| < READ_BUF_LENGTH
  {
    var at := Filled(st);
    var mem := Write(st.mem, at, chunk + [0]);
    if mem[0] != GP_INIT then BadBegin(RecvState(mem, At(at), at))
    else if GP_END !in chunk then Partial(RecvState(mem, At(at + |chunk|), at + |chunk|))
    else Whole(mem, at + FindEnd(chunk))
  }

  /** The frame from id_ctrl up to END at `end`, decoded in place and checked. */
  function DecodeFrame(mem: seq<Byte>, end: nat): (seq<Byte>, Verdict)
    requires |mem| == MEMORY && end < READ_BUF_LENGTH - 1
  {
    ScanFits(mem, 3, Max(end - 3, 0));
    CheckFrame(mem, end - 3, Scan(mem, 3, Max(end - 3, 0)))
  }

  function CheckFrame(mem: seq<Byte>, l: int, r: Scanned): (seq<Byte>, Verdict)
    requires |mem| == MEMORY && l < READ_BUF_LENGTH - 4
    requires !r.Overrun? && |r.out| <= Max(l, 0)
  {
    var n := UnescLength(l, r);
    var after := UnescMemory(mem, 3, r);
    (after, if Xor(after[3..3 + Max(n, 1)]) != 0 then BadCrc else Good(n))
  }

  /** Every read keeps the invariant; a read without INIT in front leaves the buffer empty. */
  lemma GatherKeepsValid(st: RecvState, chunk: seq<Byte>)
    requires Valid(st) && 0 < |chunk| && Filled(st) + |chunk| < READ_BUF_LENGTH
    ensures match Gather(st, chunk)
            case BadBegin(s) => Valid(s) && Filled(st) == Filled(s) == 0
            case Partial(s) => Valid(s) && Filled(s) == Filled(st) + |chunk|
            case Whole(m, end) => |m| == MEMORY && end < READ_BUF_LENGTH - 1 && m[end] == GP_END
  {
    var at := Filled(st);
    var mem := Write(st.mem, at, chunk + [0]);
    assert at > 0 ==> mem[0] == st.mem[0];
    assert mem[..at + |chunk|] == st.mem[..at] + chunk;
  }

  function Flatten(chunks: seq<seq<Byte>>): seq<Byte> {
    if chunks == [] then [] else chunks[0] + Flatten(chunks[1..])
  }

  predicate NoneEmpty(chunks: seq<seq<Byte>>) {
    forall k :: 0 <= k < |chunks| ==> chunks[k] != []
  }

  /** A frame arriving in several reads: what the last of them leads to. */
  function GatherAll(st: RecvState, chunks: seq<seq<Byte>>): Gathered
    requires chunks != [] && Valid(st) && NoneEmpty(chunks)
    requires Filled(st) + |Flatten(chunks)| < READ_BUF_LENGTH
    decreases |chunks|
  {
    GatherKeepsValid(st, chunks[0]);
    var g := Gather(st, chunks[0]);
    if |chunks| == 1 || g.Whole? then g else GatherAll(g.st, chunks[1..])
  }

  lemma GatherPart(st: RecvState, a: seq<Byte>)
    requires Valid(st) && a != [] && Filled(st) + |a| < READ_BUF_LENGTH
    requires GP_END !in a && (Filled(st) == 0 ==> a[0] == GP_INIT)
    ensures Gather(st, a).Partial?
    ensures var n := Filled(st) + |a|;
            Gather(st, a).st == RecvState(Write(st.mem, Filled(st), a + [0]), At(n), n)
  {
    GatherKeepsValid(st, a);
  }

  lemma GatherTwo(st: RecvState, a: seq<Byte>, b: seq<Byte>)
    requires Valid(st) && a != [] && b != [] && Filled(st) + |a| + |b| < READ_BUF_LENGTH
    requires GP_END !in a && (Filled(st) == 0 ==> a[0] == GP_INIT)
    ensures Gather(st, a).Partial? && Valid(Gather(st, a).st)
    ensures Filled(Gather(st, a).st) == Filled(st) + |a|
    ensures Gather(Gather(st, a).st, b) == Gather(st, a + b)
  {
    GatherKeepsValid(st, a);
    GatherPart(st, a);
    WriteTwice(st.mem, Filled(st), a, b);
    FindEndConcat(a, b);
    var mem := Write(st.mem, Filled(st), a + b + [0]);
    assert mem[0] == if Filled(st) > 0 then st.mem[0] else a[0];
  }

  lemma WriteTwice(m: seq<Byte>, at: nat, a: seq<Byte>, b: seq<Byte>)
    requires at + |a| + |b| < |m|
    ensures Write(Write(m, at, a + [0]), at + |a|, b + [0]) == Write(m, at, a + b + [0])
  {
  }

  lemma {:induction false} FindEndConcat(a: seq<Byte>, b: seq<Byte>)
    requires GP_END !in a
    ensures FindEnd(a + b) == |a| + FindEnd(b)
  {
    if a == [] {
      assert a + b == b;
    } else {
      assert (a + b)[1..] == a[1..] + b;
      FindEndConcat(a[1..], b);
    }
  }

  /** However a frame is split into reads, it is gathered as if it had arrived in one:
      the same buffer, stale bytes included, and the same END. */
  lemma {:induction false} SplitInvariant(st: RecvState, chunks: seq<seq<Byte>>)
    requires chunks != [] && Valid(st) && NoneEmpty(chunks)
    requires Filled(st) + |Flatten(chunks)| < READ_BUF_LENGTH
    requires forall k :: 0 <= k < |chunks| - 1 ==> GP_END !in chunks[k]
    requires Filled(st) == 0 ==> chunks[0][0] == GP_INIT
    ensures GatherAll(st, chunks) == Gather(st, Flatten(chunks))
    decreases |chunks|
  {
    var rest := chunks[1..];
    if rest == [] {
      assert Flatten(chunks) == chunks[0];
    } else {
      assert rest[0] == chunks[1] && |Flatten(rest)| > 0;
      GatherTwo(st, chunks[0], Flatten(rest));
      SplitInvariant(Gather(st, chunks[0]).st, rest);
    }
  }

  /** The bytes beyond a frame of `n` bytes that the extra turns for `e` escapes read,
      after END and the zero byte. */
  function Stale(mem: seq<Byte>, n: nat, e: nat): seq<Byte>
    requires n + e < |mem|
  {
    if e <= 2 then [] else mem[n + 1..n + e - 1]
  }

  /** What lies behind the stuffed body of a frame of `n` bytes. */
  function Beyond(mem: seq<Byte>, n: nat): seq<Byte>
    requires n < |mem|
  {
    [GP_END, 0] + mem[n + 1..]
  }

  /** The length at which a body of `n` bytes with `e` escapes is taken: short by one for
      every ESC that the extra turns meet behind it, and 0 when one of those has no known
      code. */
  function TakenLength(n: nat, e: nat, tail: seq<Byte>): (l: nat)
    requires e <= n
    ensures l <= n
  {
    match Scan(tail, 0, e)
    case Decoded(_, more) => n - more
    case _ => 0
  }

  /** The decoded buffer holds `body` at id_ctrl. The frame is taken at length `n`, or is
      rejected when the first `n` bytes (at least one) do not sum to zero. */
  predicate Takes(result: (seq<Byte>, Verdict), body: seq<Byte>, n: nat) {
    && 3 + |body| <= |result.0| == MEMORY && n <= |body| && body != []
    && result.0[3..3 + |body|] == body
    && result.1 == (if Xor(body[..Max(n, 1)]) == 0 then Good(n) else BadCrc)
  }

  /** How a reply frame is taken that starts in an empty buffer, in however many reads. Its
      body always ends up at id_ctrl. The length it is taken at is its own exactly when the
      decoding loop's extra turns meet no stale ESC beyond the frame. Otherwise it is
      shorter, and the frame still is good exactly when that shorter part sums to zero. */
  lemma ReplyAccepted(st: RecvState, idMain: Byte, host: Byte, body: seq<Byte>, chunks: seq<seq<Byte>>)
    requires Valid(st) && Filled(st) == 0 && idMain != GP_END && host != GP_END
    requires Xor(body) == 0 && |body| > 0
    requires |ReplyFrame(idMain, host, body)| < READ_BUF_LENGTH
    requires chunks != [] && NoneEmpty(chunks) && Flatten(chunks) == ReplyFrame(idMain, host, body)
    ensures var f, e := ReplyFrame(idMain, host, body), Specials(body);
            var g, n := GatherAll(st, chunks), TakenLength(|body|, e, Beyond(st.mem, |f|));
            && g.Whole? && |g.mem| == MEMORY && g.end == |f| - 1 < READ_BUF_LENGTH - 1
            && Takes(DecodeFrame(g.mem, g.end), body, n)
            && (n == |body| <==> GP_ESC !in Stale(st.mem, |f|, e))
  {
    var f := ReplyFrame(idMain, host, body);
    var mem := Write(st.mem, 0, f + [0]);
    ReplyGathered(st, idMain, host, body, chunks);
    WriteReply(st.mem, [GP_INIT, idMain, host], Esc(body));
    DecodeBody(mem, [GP_INIT, idMain, host], body, Beyond(st.mem, |f|));
    FullLength(body, Beyond(st.mem, |f|));
    StaleTail(st.mem, |f|, Specials(body));
  }

  /** The reads of a whole reply frame leave it in the buffer. */
  lemma ReplyGathered(st: RecvState, idMain: Byte, host: Byte, body: seq<Byte>, chunks: seq<seq<Byte>>)
    requires Valid(st) && Filled(st) == 0 && idMain != GP_END && host != GP_END
    requires |ReplyFrame(idMain, host, body)| < READ_BUF_LENGTH
    requires chunks != [] && NoneEmpty(chunks) && Flatten(chunks) == ReplyFrame(idMain, host, body)
    ensures var f := ReplyFrame(idMain, host, body);
            GatherAll(st, chunks) == Whole(Write(st.mem, 0, f + [0]), |f| - 1)
  {
    ReplyEnd(idMain, host, body);
    OnlyLastHasEnd(chunks);
    SplitInvariant(st, chunks);
  }

  lemma WriteReply(m: seq<Byte>, head: seq<Byte>, e: seq<Byte>)
    requires |head| + |e| + 2 <= |m|
    ensures Write(m, 0, head + e + [GP_END] + [0]) == head + (e + Beyond(m, |head| + |e| + 1))
  {
  }

  /** When the only END of a frame is its last byte, no read but the last contains one. */
  lemma {:induction false} OnlyLastHasEnd(chunks: seq<seq<Byte>>)
    requires chunks != [] && NoneEmpty(chunks)
    requires FindEnd(Flatten(chunks)) == |Flatten(chunks)| - 1
    ensures forall k :: 0 <= k < |chunks| - 1 ==> GP_END !in chunks[k]
    ensures chunks[0][0] == Flatten(chunks)[0]
    decreases |chunks|
  {
    var rest := chunks[1..];
    if rest != [] {
      assert rest[0] == chunks[1] && |Flatten(rest)| > 0;
      var k := FindEnd(Flatten(chunks));
      assert Flatten(chunks)[..k][..|chunks[0]|] == chunks[0];
      FindEndConcat(chunks[0], Flatten(rest));
      OnlyLastHasEnd(rest);
    }
  }

  lemma DecodeBody(mem: seq<Byte>, head: seq<Byte>, body: seq<Byte>, tail: seq<Byte>)
    requires |mem| == MEMORY && |head| == 3 && mem == head + (Esc(body) + tail) && |tail| >= |Esc(body)|
    requires |body| > 0 && 3 + |Esc(body)| < READ_BUF_LENGTH - 1
    ensures Takes(DecodeFrame(mem, 3 + |Esc(body)|), body, TakenLength(|body|, Specials(body), tail))
  {
    var n := |Esc(body)|;
    var r := Scan(mem, 3, n);
    ScanBehindHead(mem, head, body, tail);
    ScanFits(mem, 3, n);
    TakenIsUnesc(body, tail, r);
    DecodeIsCheck(mem, n, r);
    CheckBody(mem, n, r, body);
  }

  lemma ScanBehindHead(mem: seq<Byte>, head: seq<Byte>, body: seq<Byte>, tail: seq<Byte>)
    requires mem == head + (Esc(body) + tail)
    ensures Scan(mem, |head|, |Esc(body)|) == Scan(tail, 0, Specials(body)).After(body, Specials(body))
  {
    ScanShift(head, Esc(body) + tail, |head|, |Esc(body)|);
    ScanStuffed(body, tail);
  }

  lemma TakenIsUnesc(body: seq<Byte>, tail: seq<Byte>, r: Scanned)
    requires r == Scan(tail, 0, Specials(body)).After(body, Specials(body)) && !r.Overrun?
    ensures body <= r.out
    ensures UnescLength(|Esc(body)|, r) == TakenLength(|body|, Specials(body), tail)
  {
    assert body <= body + Scan(tail, 0, Specials(body)).out;
  }

  /** The length is the body's own exactly when no ESC is met. */
  lemma FullLength(body: seq<Byte>, tail: seq<Byte>)
    requires Specials(body) <= |tail| && body != []
    ensures TakenLength(|body|, Specials(body), tail) == |body| <==> GP_ESC !in tail[..Specials(body)]
  {
    var e := Specials(body);
    assert tail[0..e] == tail[..e];
    if GP_ESC !in tail[..e] {
      ScanPlain(tail, 0, e);
    } else {
      ScanMeetsEsc(tail, 0, e);
    }
  }

  lemma DecodeIsCheck(mem: seq<Byte>, n: nat, r: Scanned)
    requires |mem| == MEMORY && 3 + n < READ_BUF_LENGTH - 1
    requires r == Scan(mem, 3, n) && !r.Overrun?
    ensures DecodeFrame(mem, 3 + n) == CheckFrame(mem, n, r)
  {
  }

  lemma CheckBody(mem: seq<Byte>, l: nat, r: Scanned, body: seq<Byte>)
    requires |mem| == MEMORY && l < READ_BUF_LENGTH - 4
    requires !r.Overrun? && |r.out| <= l && body <= r.out && body != []
    requires 0 <= UnescLength(l, r) <= |body|
    ensures Takes(CheckFrame(mem, l, r), body, UnescLength(l, r))
  {
    var n, after := UnescLength(l, r), UnescMemory(mem, 3, r);
    OutInMemory(mem, r, body);
    assert after[3..3 + Max(n, 1)] == after[3..3 + |body|][..Max(n, 1)];
  }

  lemma ReplyEnd(idMain: Byte, host: Byte, body: seq<Byte>)
    requires idMain != GP_END && host != GP_END
    ensures FindEnd(ReplyFrame(idMain, host, body)) == 3 + |Esc(body)|
    ensures GP_END in ReplyFrame(idMain, host, body)
  {
    var h := [GP_INIT, idMain, host] + Esc(body);
    FindEndConcat(h, [GP_END]);
    assert ReplyFrame(idMain, host, body)[|h|] == GP_END;
  }

  lemma OutInMemory(mem: seq<Byte>, r: Scanned, body: seq<Byte>)
    requires !r.Overrun? && 3 + |r.out| < |mem| && body <= r.out
    ensures UnescMemory(mem, 3, r)[3..3 + |body|] == body
  {
  }

  lemma StaleTail(mem: seq<Byte>, n: nat, e: nat)
    requires n + e < |mem|
    ensures GP_ESC in Beyond(mem, n)[..e] <==> GP_ESC in Stale(mem, n, e)
  {
    var tail := Beyond(mem, n);
    if e > 2 {
      assert tail[..e] == [GP_END, 0] + Stale(mem, n, e);
    } else {
      assert forall i :: 0 <= i < e ==> tail[..e][i] == [GP_END, 0][i];
    }
  }

  /** Replies with at most two escapes are always accepted, whatever the buffer held. */
  lemma FewEscapesAccepted(st: RecvState, idMain: Byte, host: Byte, body: seq<Byte>, chunks: seq<seq<Byte>>)
    requires Valid(st) && Filled(st) == 0 && idMain != GP_END && host != GP_END
    requires Xor(body) == 0 && |body| > 0 && Specials(body) <= 2
    requires |ReplyFrame(idMain, host, body)| < READ_BUF_LENGTH
    requires chunks != [] && NoneEmpty(chunks) && Flatten(chunks) == ReplyFrame(idMain, host, body)
    ensures var g := GatherAll(st, chunks);
            && g.Whole? && |g.mem| == MEMORY && g.end < READ_BUF_LENGTH - 1
            && Takes(DecodeFrame(g.mem, g.end), body, |body|) && DecodeFrame(g.mem, g.end).1 == Good(|body|)
  {
    ReplyAccepted(st, idMain, host, body, chunks);
    assert body[..|body|] == body;
  }

  /** A good frame can be taken one byte short: three escapes, a last byte 0, and a stale ESC
      with a known code two bytes behind END. */
  lemma TakenShort(front: seq<Byte>, more: seq<Byte>)
    requires Xor(front) == 0 && front != [] && Specials(front + [0]) == 3
    ensures TakenLength(|front| + 1, 3, [GP_END, 0, GP_ESC, 3] + more) == |front|
    ensures Xor((front + [0])[..|front|]) == 0
  {
    var tail := [GP_END, 0, GP_ESC, 3] + more;
    assert Scan(tail, 2, 1) == Scan(tail, 4, 0).After([GP_ESC], 1);
    assert Scan(tail, 1, 2) == Scan(tail, 2, 1).After([0], 0);
    assert Scan(tail, 0, 3) == Scan(tail, 1, 2).After([GP_END], 0);
    assert (front + [0])[..|front|] == front;
  }

  /** Decoding leaves what lies behind the frame as it was. */
  lemma DecodeKeepsBeyond(mem: seq<Byte>, end: nat)
    requires |mem| == MEMORY && 3 <= end < READ_BUF_LENGTH - 1
    ensures DecodeFrame(mem, end).0[end + 1..] == mem[end + 1..]
  {
    ScanFits(mem, 3, end - 3);
    var r := Scan(mem, 3, end - 3);
    assert UnescMemory(mem, 3, r)[end + 1..] == mem[end + 1..];
  }

  /** So the same reply, sent again, meets the same stale bytes and is taken at the same length
      again. */
  lemma StaleBytesStay(st: RecvState, idMain: Byte, host: Byte, body: seq<Byte>, chunks: seq<seq<Byte>>)
    requires Valid(st) && Filled(st) == 0 && idMain != GP_END && host != GP_END
    requires |ReplyFrame(idMain, host, body)| < READ_BUF_LENGTH
    requires chunks != [] && NoneEmpty(chunks) && Flatten(chunks) == ReplyFrame(idMain, host, body)
    ensures var n, w := |ReplyFrame(idMain, host, body)|, GatherAll(st, chunks);
            && w.Whole? && |w.mem| == MEMORY && w.end < READ_BUF_LENGTH - 1
            && Beyond(DecodeFrame(w.mem, w.end).0, n) == Beyond(st.mem, n)
  {
    var f := ReplyFrame(idMain, host, body);
    var mem := Write(st.mem, 0, f + [0]);
    ReplyGathered(st, idMain, host, body, chunks);
    DecodeKeepsBeyond(mem, |f| - 1);
    BeyondTail(mem, DecodeFrame(mem, |f| - 1).0, |f|);
    assert mem[|f| + 1..] == st.mem[|f| + 1..];
  }

  lemma BeyondTail(a: seq<Byte>, b: seq<Byte>, n: nat)
    requires |a| == |b| && n < |a| && b[n..] == a[n..]
    ensures b[n + 1..] == a[n + 1..]
  {
    assert b[n + 1..] == b[n..][1..] && a[n + 1..] == a[n..][1..];
  }
}
