/** Read events of `gp_receiv` from bytes to dispatch (src/gp_layer.c): a data reply acts the
    same in however many reads it arrives. */
module Reads {
  import opened LibGate
  import opened Crc8
  import opened Stuffing
  import opened Frames
  import opened Memory
  import opened CardBytes
  import opened Receiver
  import opened AdTarget
  import opened GateState
  import opened GpLayer

  /** The decoded frame as the dispatcher reads it from the receive buffer. For a reply frame
      `receiv_mess.len` still is what it was when the read started. */
  function ReplyAt(mem: seq<Byte>, n: int, len: int): Reply
    requires |mem| == MEMORY
  {
    Reply(mem[4], mem[5], mem[6..6 + CMD_BUFF_LENGTH], if mem[5] == GP_REPLY then len else n - 4)
  }

  /** A whole frame after `ReadStart`: nothing happens on a bad checksum. */
  function OnFrame(g: Gate, result: (seq<Byte>, Verdict), len: int): Gate
    requires |result.0| == MEMORY
  {
    match result.1
    case BadCrc => g
    case Good(n) => Dispatch(g, ReplyAt(result.0, n, len))
  }

  /** The receive buffer when the port gave nothing. */
  function Opened(st: RecvState): RecvState {
    RecvState(st.mem, At(Filled(st)), Filled(st))
  }

  /** One read event. A read of no bytes, as one into a full buffer is, resets the device. */
  function OnRead(g: Gate, st: RecvState, chunk: seq<Byte>): (Gate, RecvState)
    requires Valid(st) && Filled(st) + |chunk| < READ_BUF_LENGTH
  {
    if chunk == [] then (Send(ReadStart(g), SoftReset(Short, g.dev)), Opened(st))
    else
      GatherKeepsValid(st, chunk);
      match Gather(st, chunk)
      case BadBegin(s) => (ReadStart(g), s)
      case Partial(s) => (ReadStart(g), s)
      case Whole(mem, end) =>
        var result := DecodeFrame(mem, end);
        (OnFrame(ReadStart(g), result, Filled(st)), RecvState(result.0, Null, Filled(st)))
  }

  /** Every read keeps the reassembly invariant. */
  lemma OnReadKeepsValid(g: Gate, st: RecvState, chunk: seq<Byte>)
    requires Valid(st) && Filled(st) + |chunk| < READ_BUF_LENGTH
    ensures Valid(OnRead(g, st, chunk).1) && Filled(OnRead(g, st, chunk).1) <= Filled(st) + |chunk|
  {
    if chunk != [] {
      GatherKeepsValid(st, chunk);
    }
  }

  /** Several read events in a row. */
  function OnReads(g: Gate, st: RecvState, chunks: seq<seq<Byte>>): Gate
    requires chunks != [] && Valid(st) && NoneEmpty(chunks)
    requires Filled(st) + |Flatten(chunks)| < READ_BUF_LENGTH
    decreases |chunks|
  {
    var (g1, st1) := OnRead(g, st, chunks[0]);
    OnReadKeepsValid(g, st, chunks[0]);
    if |chunks| == 1 then g1 else OnReads(g1, st1, chunks[1..])
  }

  /** What a read does first it does only once. */
  lemma ReadStartTwice(g: Gate)
    ensures ReadStart(ReadStart(g)) == ReadStart(g)
  {
    var g1 := ReadStart(g);
    assert DevAt(g1, g.dev).inited && DevAt(g1, g.dev).active && DevAt(g1, g.dev).timeouts == 0;
    assert g1.devices[g.dev := DevAt(g1, g.dev)] == g1.devices;
  }

  /** A read that completes nothing leaves the dispatch to the reads after it. */
  lemma {:induction false} SplitDispatch(g: Gate, st: RecvState, chunks: seq<seq<Byte>>)
    requires chunks != [] && Valid(st) && NoneEmpty(chunks)
    requires Filled(st) + |Flatten(chunks)| < READ_BUF_LENGTH
    requires forall k :: 0 <= k < |chunks| - 1 ==> GP_END !in chunks[k]
    requires Filled(st) == 0 ==> chunks[0][0] == GP_INIT
    requires GatherAll(st, chunks).Whole?
    ensures var w := GatherAll(st, chunks);
            && |w.mem| == MEMORY && w.end < READ_BUF_LENGTH - 1
            && exists len :: OnReads(g, st, chunks) == OnFrame(ReadStart(g), DecodeFrame(w.mem, w.end), len)
    decreases |chunks|
  {
    GatherKeepsValid(st, chunks[0]);
    if |chunks| > 1 {
      GatherPart(st, chunks[0]);
      var st1 := Gather(st, chunks[0]).st;
      ReadStartTwice(g);
      SplitDispatch(ReadStart(g), st1, chunks[1..]);
      assert GatherAll(st, chunks) == GatherAll(st1, chunks[1..]);
      assert OnReads(g, st, chunks) == OnReads(ReadStart(g), st1, chunks[1..]);
    } else {
      var w := Gather(st, chunks[0]);
      assert OnReads(g, st, chunks) == OnFrame(ReadStart(g), DecodeFrame(w.mem, w.end), Filled(st));
    }
  }

  /** The length left over from earlier reads matters for reply frames only. */
  lemma DataLengthFixed(g: Gate, result: (seq<Byte>, Verdict), a: int, b: int)
    requires |result.0| == MEMORY && result.0[5] != GP_REPLY
    ensures OnFrame(g, result, a) == OnFrame(g, result, b)
  {
  }

  /** `r` is a reply with `payload` in its buffer. */
  predicate Bears(r: Reply, src: Byte, cmdN: Byte, payload: seq<Byte>) {
    r.src == src && r.cmdN == cmdN && |payload| <= CMD_BUFF_LENGTH && r.buff[..|payload|] == payload
  }

  /** And its length is that of `payload`. */
  predicate Conveys(r: Reply, src: Byte, cmdN: Byte, payload: seq<Byte>) {
    Bears(r, src, cmdN, payload) && r.len == |payload|
  }

  lemma Window(mem: seq<Byte>, at: nat, w: seq<Byte>, i: nat, n: nat)
    requires at + |w| <= |mem| && mem[at..at + |w|] == w && i + n <= |w|
    ensures mem[at + i..at + i + n] == w[i..i + n]
    ensures forall k: nat :: k < |w| ==> mem[at + k] == w[k]
  {
    forall k: nat | k < |w|
      ensures mem[at + k] == w[k]
    {
      assert mem[at..at + |w|][k] == mem[at + k];
    }
  }

  lemma TakenBears(result: (seq<Byte>, Verdict), idCtrl: Byte, src: Byte, cmdN: Byte, payload: seq<Byte>,
                   taken: nat, n: int, len: int)
    requires Takes(result, ReplyBody(idCtrl, src, cmdN, payload), taken) && |payload| <= CMD_BUFF_LENGTH
    ensures result.0[5] == cmdN && Bears(ReplyAt(result.0, n, len), src, cmdN, payload)
  {
    var body := ReplyBody(idCtrl, src, cmdN, payload);
    var mem := result.0;
    Window(mem, 3, body, 3, |payload|);
    assert mem[3 + 1] == body[1] == src && mem[3 + 2] == body[2] == cmdN;
    assert body[3..3 + |payload|] == payload;
  }

  lemma TakenConveys(result: (seq<Byte>, Verdict), idCtrl: Byte, src: Byte, cmdN: Byte, payload: seq<Byte>, n: nat)
    requires Takes(result, ReplyBody(idCtrl, src, cmdN, payload), n)
    requires cmdN != GP_REPLY && |payload| <= CMD_BUFF_LENGTH
    ensures result.0[5] == cmdN
    ensures var r := ReplyAt(result.0, |payload| + 4, 0);
            Conveys(r, src, cmdN, payload) && ReplyAt(result.0, n, 0) == Cut(r, |payload| + 4 - n)
  {
    TakenBears(result, idCtrl, src, cmdN, payload, n, |payload| + 4, 0);
  }

  lemma BodySums(idCtrl: Byte, src: Byte, cmdN: Byte, payload: seq<Byte>)
    ensures Xor(ReplyBody(idCtrl, src, cmdN, payload)) == 0
  {
    var sum := [idCtrl, src, cmdN] + payload;
    ChecksumCloses(sum, Xor(sum));
  }

  /** A whole data frame on the line, of `f` bytes, with bytes in the buffer beyond it. */
  ghost predicate Arrives(st: RecvState, f: seq<Byte>, chunks: seq<seq<Byte>>, payload: seq<Byte>) {
    && Valid(st) && Filled(st) == 0 && |f| < READ_BUF_LENGTH && |payload| <= CMD_BUFF_LENGTH
    && chunks != [] && NoneEmpty(chunks) && Flatten(chunks) == f
  }

  /** The reply with `payload` is dispatched as if its frame had been `n` bytes from id_ctrl
      on, or dropped. */
  ghost predicate ActsOn(g: Gate, g': Gate, src: Byte, cmdN: Byte, payload: seq<Byte>, n: nat, good: bool)
    requires n <= |payload| + 4
  {
    if good then exists r :: Conveys(r, src, cmdN, payload)
                             && g' == Dispatch(ReadStart(g), Cut(r, |payload| + 4 - n))
    else g' == ReadStart(g)
  }

  /** From the line to the handlers, after any split into reads and whatever the buffer held
      before. A data reply is dispatched with its own source, command number and payload, cut
      by what the stale bytes take off its length, or is dropped as bad: exactly when the part
      that is left does not sum to zero. */
  lemma DataReplyTaken(g: Gate, st: RecvState, idMain: Byte, host: Byte,
                       idCtrl: Byte, src: Byte, cmdN: Byte, payload: seq<Byte>, chunks: seq<seq<Byte>>)
    requires idMain != GP_END && host != GP_END && cmdN != GP_REPLY
    requires Arrives(st, ReplyFrame(idMain, host, ReplyBody(idCtrl, src, cmdN, payload)), chunks, payload)
    ensures var body := ReplyBody(idCtrl, src, cmdN, payload);
            var n := TakenLength(|body|, Specials(body), Beyond(st.mem, |ReplyFrame(idMain, host, body)|));
            ActsOn(g, OnReads(g, st, chunks), src, cmdN, payload, n, Xor(body[..Max(n, 1)]) == 0)
  {
    var body := ReplyBody(idCtrl, src, cmdN, payload);
    BodySums(idCtrl, src, cmdN, payload);
    ReplyAccepted(st, idMain, host, body, chunks);
    ReplyEnd(idMain, host, body);
    OnlyLastHasEnd(chunks);
    SplitDispatch(g, st, chunks);
    var w := GatherAll(st, chunks);
    var n := TakenLength(|body|, Specials(body), Beyond(st.mem, |ReplyFrame(idMain, host, body)|));
    TakenDispatched(g, DecodeFrame(w.mem, w.end), idCtrl, src, cmdN, payload, n, OnReads(g, st, chunks));
  }

  /** An ACK, NACK or error frame is dispatched with what it says, whatever stale bytes do to
      its length, or is dropped as bad. */
  lemma ReplyFrameTaken(g: Gate, st: RecvState, idMain: Byte, host: Byte,
                        idCtrl: Byte, src: Byte, payload: seq<Byte>, chunks: seq<seq<Byte>>)
    requires idMain != GP_END && host != GP_END
    requires Arrives(st, ReplyFrame(idMain, host, ReplyBody(idCtrl, src, GP_REPLY, payload)), chunks, payload)
    ensures var body := ReplyBody(idCtrl, src, GP_REPLY, payload);
            var n := TakenLength(|body|, Specials(body), Beyond(st.mem, |ReplyFrame(idMain, host, body)|));
            if Xor(body[..Max(n, 1)]) != 0 then OnReads(g, st, chunks) == ReadStart(g)
            else exists r :: Bears(r, src, GP_REPLY, payload) && OnReads(g, st, chunks) == Dispatch(ReadStart(g), r)
  {
    var body := ReplyBody(idCtrl, src, GP_REPLY, payload);
    BodySums(idCtrl, src, GP_REPLY, payload);
    ReplyAccepted(st, idMain, host, body, chunks);
    ReplyEnd(idMain, host, body);
    OnlyLastHasEnd(chunks);
    SplitDispatch(g, st, chunks);
    var w := GatherAll(st, chunks);
    var result := DecodeFrame(w.mem, w.end);
    var n := TakenLength(|body|, Specials(body), Beyond(st.mem, |ReplyFrame(idMain, host, body)|));
    var len :| OnReads(g, st, chunks) == OnFrame(ReadStart(g), result, len);
    TakenBears(result, idCtrl, src, GP_REPLY, payload, n, n, len);
  }

  lemma TakenDispatched(g: Gate, result: (seq<Byte>, Verdict), idCtrl: Byte, src: Byte, cmdN: Byte,
                        payload: seq<Byte>, n: nat, g': Gate)
    requires Takes(result, ReplyBody(idCtrl, src, cmdN, payload), n)
    requires cmdN != GP_REPLY && |payload| <= CMD_BUFF_LENGTH
    requires exists len :: g' == OnFrame(ReadStart(g), result, len)
    ensures ActsOn(g, g', src, cmdN, payload, n, Xor(ReplyBody(idCtrl, src, cmdN, payload)[..Max(n, 1)]) == 0)
  {
    TakenConveys(result, idCtrl, src, cmdN, payload, n);
    var len :| g' == OnFrame(ReadStart(g), result, len);
    DataLengthFixed(ReadStart(g), result, len, 0);
    var r := ReplyAt(result.0, |payload| + 4, 0);
    assert result.1 == Good(n) ==> g' == Dispatch(ReadStart(g), Cut(r, |payload| + 4 - n));
  }

  /** A data reply that meets no stale ESC is dispatched as it was sent. */
  lemma DataReplyDispatched(g: Gate, st: RecvState, idMain: Byte, host: Byte,
                            idCtrl: Byte, src: Byte, cmdN: Byte, payload: seq<Byte>, chunks: seq<seq<Byte>>)
    requires idMain != GP_END && host != GP_END && cmdN != GP_REPLY
    requires Arrives(st, ReplyFrame(idMain, host, ReplyBody(idCtrl, src, cmdN, payload)), chunks, payload)
    requires var body := ReplyBody(idCtrl, src, cmdN, payload);
             GP_ESC !in Stale(st.mem, |ReplyFrame(idMain, host, body)|, Specials(body))
    ensures exists r :: Conveys(r, src, cmdN, payload) && OnReads(g, st, chunks) == Dispatch(ReadStart(g), r)
  {
    var body := ReplyBody(idCtrl, src, cmdN, payload);
    var f := ReplyFrame(idMain, host, body);
    BodySums(idCtrl, src, cmdN, payload);
    DataReplyTaken(g, st, idMain, host, idCtrl, src, cmdN, payload, chunks);
    FullLength(body, Beyond(st.mem, |f|));
    StaleTail(st.mem, |f|, Specials(body));
    assert body[..|body|] == body;
    var r :| Conveys(r, src, cmdN, payload) && OnReads(g, st, chunks) == Dispatch(ReadStart(g), Cut(r, 0));
    assert Cut(r, 0) == r;
  }

  // ----- a reply of one record that makes no progress -----

  const STALLING: seq<Byte> := [4, 0xFF, 0xFF, 0xFA, 0xF0, 0x0A, 0, 0]

  /** A block reply of one record, with three escapes and checksum 0. Behind it lie the zero
      byte, an ESC and a known code: it is good, taken one byte short, and so holds no whole
      record. */
  lemma StallingReply(more: seq<Byte>)
    ensures var body := ReplyBody(1, 1, 4, STALLING);
            && |STALLING| == EVENT_SIZE && Specials(body) == 3
            && TakenLength(|body|, Specials(body), [GP_END, 0, GP_ESC, 3] + more) == |body| - 1
            && Xor(body[..|body| - 1]) == 0
  {
    var front: seq<Byte> := [1, 1, 4] + STALLING;
    StallingSum(front);
    StallingEscapes(front + [0]);
    assert ReplyBody(1, 1, 4, STALLING) == front + [0];
    TakenShort(front, more);
  }

  // ----- the reads that leave those bytes -----

  /** A read without INIT in front that leaves an ESC and a known code behind a frame of 19
      bytes. */
  const JUNK: seq<Byte> := Zeros(20) + [GP_ESC, 3]

  /** Such bytes stay in the buffer, and the next read starts over it. */
  lemma JunkStays(g: Gate, st: RecvState, junk: seq<Byte>)
    requires Valid(st) && Filled(st) == 0 && 0 < |junk| < READ_BUF_LENGTH && junk[0] != GP_INIT
    ensures var (g1, st1) := OnRead(g, st, junk);
            && g1 == ReadStart(g) && Valid(st1) && Filled(st1) == 0 && st1.mem[..|junk|] == junk
  {
    GatherKeepsValid(st, junk);
    assert Write(st.mem, 0, junk + [0])[..|junk|] == junk;
  }

  /** From any state with nothing gathered: a read of junk, and then the one-record reply in any
      reads. It is dispatched with its payload but seven bytes long, so holds no whole record. */
  lemma StallingReads(g: Gate, st: RecvState, idMain: Byte, host: Byte, chunks: seq<seq<Byte>>)
    requires Valid(st) && Filled(st) == 0 && idMain != GP_END && host != GP_END
    requires chunks != [] && NoneEmpty(chunks)
    requires Flatten(chunks) == ReplyFrame(idMain, host, ReplyBody(1, 1, 4, STALLING))
    ensures |JUNK| < READ_BUF_LENGTH && |Flatten(chunks)| < READ_BUF_LENGTH
    ensures var (g1, st1) := OnRead(g, st, JUNK);
            && Valid(st1) && Filled(st1) == 0
            && exists r :: Conveys(r, 1, 4, STALLING)
                           && OnReads(g1, st1, chunks) == Dispatch(ReadStart(g1), Cut(r, 1))
                           && Cut(r, 1).len < EVENT_SIZE
  {
    var body := ReplyBody(1, 1, 4, STALLING);
    var f := ReplyFrame(idMain, host, body);
    var (g1, st1) := OnRead(g, st, JUNK);
    assert JUNK[0] == 0;
    JunkStays(g, st, JUNK);
    StallingReply([]);
    assert |f| == 19;
    var more := st1.mem[22..];
    JunkBeyond(st1.mem, more);
    StallingReply(more);
    DataReplyTaken(g1, st1, idMain, host, 1, 1, 4, STALLING, chunks);
    var r :| Conveys(r, 1, 4, STALLING) && OnReads(g1, st1, chunks) == Dispatch(ReadStart(g1), Cut(r, 1));
    assert Cut(r, 1).len == 7;
  }

  lemma JunkBeyond(mem: seq<Byte>, more: seq<Byte>)
    requires |mem| >= 22 && mem[..22] == JUNK && more == mem[22..]
    ensures Beyond(mem, 19) == [GP_END, 0, GP_ESC, 3] + more
  {
    assert mem[20] == mem[..22][20] == GP_ESC && mem[21] == mem[..22][21] == 3;
    assert mem[20..] == [GP_ESC, 3] + more;
  }

  lemma StallingSum(front: seq<Byte>)
    requires front == [1, 1, 4] + STALLING
    ensures Xor(front) == 0
  {
    var last: seq<Byte> := [0xFA, 0xF0, 0x0A, 0, 0];
    assert front == [1, 1] + ([4, 4] + ([0xFF, 0xFF] + last));
    XorPair(1, [4, 4] + ([0xFF, 0xFF] + last));
    XorPair(4, [0xFF, 0xFF] + last);
    XorPair(0xFF, last);
    StallingLast(last);
  }

  lemma StallingLast(last: seq<Byte>)
    requires last == [0xFA, 0xF0, 0x0A, 0, 0]
    ensures Xor(last) == 0
  {
    assert last == [0xFA] + ([0xF0] + ([0x0A] + ([0, 0] + [])));
    XorPair(0, []);
    XorFront(0x0A, [0, 0] + []);
    Xor8Zero(0x0A);
    XorFront(0xF0, [0x0A] + ([0, 0] + []));
    NibblesApart();
    XorFront(0xFA, [0xF0] + ([0x0A] + ([0, 0] + [])));
    Xor8Self(0xFA, 0xFA);
  }

  lemma XorFront(b: Byte, s: seq<Byte>)
    ensures Xor([b] + s) == Xor8(b, Xor(s))
  {
    assert ([b] + s)[1..] == s;
  }

  lemma NibblesApart()
    ensures Xor8(0xF0, 0x0A) == 0xFA
  {
    assert XorBits(0x0F, 0, 4) == 0x0F by {
      assert XorBits(3, 0, 2) == 3;
    }
    assert XorBits(0x1E, 1, 5) == 0x1F;
    assert XorBits(0x3C, 2, 6) == 0x3E;
    assert XorBits(0x78, 5, 7) == 0x7D;
  }

  /** A byte twice in front cancels out. */
  lemma XorPair(b: Byte, s: seq<Byte>)
    ensures Xor([b, b] + s) == Xor(s)
  {
    var w := [b, b] + s;
    assert w[1..][1..] == s && w[0] == w[1..][0] == b;
    Xor8Assoc(b, b, Xor(s));
    Xor8Self(b, b);
    Xor8Zero(Xor(s));
  }

  lemma StallingEscapes(body: seq<Byte>)
    requires body == [1, 1, 4] + STALLING + [0]
    ensures Specials(body) == 3
  {
    var a: seq<Byte>, b: seq<Byte>, c: seq<Byte> := [1, 1, 4, 4], [0xFF, 0xFF, 0xFA], [0xF0, 0x0A, 0, 0, 0];
    assert body == a + (b + c);
    SpecialsConcat(a, b + c);
    SpecialsConcat(b, c);
    AllOrNone(a);
    AllOrNone(b);
    AllOrNone(c);
  }

  lemma {:induction false} SpecialsConcat(a: seq<Byte>, b: seq<Byte>)
    ensures Specials(a + b) == Specials(a) + Specials(b)
  {
    if a == [] {
      assert a + b == b;
    } else {
      assert (a + b)[1..] == a[1..] + b;
      SpecialsConcat(a[1..], b);
    }
  }

  lemma {:induction false} AllOrNone(s: seq<Byte>)
    ensures (forall k :: 0 <= k < |s| ==> Special(s[k])) ==> Specials(s) == |s|
    ensures (forall k :: 0 <= k < |s| ==> !Special(s[k])) ==> Specials(s) == 0
  {
    if s != [] {
      AllOrNone(s[1..]);
      assert forall k :: 0 <= k < |s| - 1 ==> s[1..][k] == s[k + 1];
    }
  }
}
