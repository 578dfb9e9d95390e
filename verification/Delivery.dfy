/** The byte level meets the runs of the system: the reads of a frame on the line do to the
    program what one step of a run does. */
module Delivery {
  import opened LibGate
  import opened Stuffing
  import opened Crc8
  import opened Frames
  import opened Receiver
  import opened GateState
  import opened GpLayer
  import opened Reads
  import opened LineSystem

  /** The program with an answer on the line. */
  function Answering(g: Gate, r: Reply, logs: Logs): Sys {
    Sys(g, [Answer(r)], logs)
  }

  /** A step in which the answer on the line is delivered, cut or whole, or rejected, and that
      takes the program to `g'`. */
  ghost predicate Delivers(s: Sys, st: Step, g': Gate) {
    (st.Deliver? || st.Reject?) && Enabled(s, st) && Apply(s, st).g == g'
  }

  lemma CutDelivers(g: Gate, r: Reply, logs: Logs, missing: nat)
    requires !IsReplyFrame(r) && missing <= r.len + 4
    ensures Delivers(Answering(g, r, logs), Deliver(missing), Dispatch(ReadStart(g), Cut(r, missing)))
  {
  }

  lemma RejectDelivers(g: Gate, r: Reply, logs: Logs)
    ensures Delivers(Answering(g, r, logs), Reject, ReadStart(g))
  {
  }

  /** Some reply with that payload in its buffer. */
  function SomeReply(src: Byte, cmdN: Byte, payload: seq<Byte>): Reply
    requires |payload| <= CMD_BUFF_LENGTH
  {
    Reply(src, cmdN, payload + seq(CMD_BUFF_LENGTH - |payload|, _ => 0), |payload|)
  }

  lemma SomeReplyConveys(src: Byte, cmdN: Byte, payload: seq<Byte>)
    requires |payload| <= CMD_BUFF_LENGTH
    ensures Conveys(SomeReply(src, cmdN, payload), src, cmdN, payload)
  {
  }

  /** A data frame on the line, in whatever reads it arrives and whatever the buffer held: the
      program is where a delivery of a reply with its source, command, payload and length, or
      a rejection, takes it. */
  lemma DataFrameIsStep(g: Gate, st: RecvState, logs: Logs, idMain: Byte, host: Byte,
                        idCtrl: Byte, src: Byte, cmdN: Byte, payload: seq<Byte>, chunks: seq<seq<Byte>>)
    requires idMain != GP_END && host != GP_END && cmdN != GP_REPLY
    requires Arrives(st, ReplyFrame(idMain, host, ReplyBody(idCtrl, src, cmdN, payload)), chunks, payload)
    ensures exists r, step :: Conveys(r, src, cmdN, payload)
                              && Delivers(Answering(g, r, logs), step, OnReads(g, st, chunks))
  {
    var body := ReplyBody(idCtrl, src, cmdN, payload);
    var n := TakenLength(|body|, Specials(body), Beyond(st.mem, |ReplyFrame(idMain, host, body)|));
    DataReplyTaken(g, st, idMain, host, idCtrl, src, cmdN, payload, chunks);
    ActsAsStep(g, OnReads(g, st, chunks), logs, src, cmdN, payload, n, Xor(body[..Max(n, 1)]) == 0);
  }

  lemma ActsAsStep(g: Gate, g': Gate, logs: Logs, src: Byte, cmdN: Byte, payload: seq<Byte>, n: nat, good: bool)
    requires n <= |payload| + 4 && |payload| <= CMD_BUFF_LENGTH && cmdN != GP_REPLY
    requires ActsOn(g, g', src, cmdN, payload, n, good)
    ensures exists r, step :: Conveys(r, src, cmdN, payload) && Delivers(Answering(g, r, logs), step, g')
  {
    if good {
      var r :| Conveys(r, src, cmdN, payload) && g' == Dispatch(ReadStart(g), Cut(r, |payload| + 4 - n));
      CutDelivers(g, r, logs, |payload| + 4 - n);
    } else {
      SomeReplyConveys(src, cmdN, payload);
      RejectDelivers(g, SomeReply(src, cmdN, payload), logs);
    }
  }

  /** And an ACK, NACK or error frame. */
  lemma ReplyFrameIsStep(g: Gate, st: RecvState, logs: Logs, idMain: Byte, host: Byte,
                         idCtrl: Byte, src: Byte, payload: seq<Byte>, chunks: seq<seq<Byte>>)
    requires idMain != GP_END && host != GP_END
    requires Arrives(st, ReplyFrame(idMain, host, ReplyBody(idCtrl, src, GP_REPLY, payload)), chunks, payload)
    ensures exists r, step :: Bears(r, src, GP_REPLY, payload)
                              && Delivers(Answering(g, r, logs), step, OnReads(g, st, chunks))
  {
    var body := ReplyBody(idCtrl, src, GP_REPLY, payload);
    var n := TakenLength(|body|, Specials(body), Beyond(st.mem, |ReplyFrame(idMain, host, body)|));
    ReplyFrameTaken(g, st, idMain, host, idCtrl, src, payload, chunks);
    if Xor(body[..Max(n, 1)]) != 0 {
      SomeReplyConveys(src, GP_REPLY, payload);
      RejectDelivers(g, SomeReply(src, GP_REPLY, payload), logs);
    } else {
      var r :| Bears(r, src, GP_REPLY, payload) && OnReads(g, st, chunks) == Dispatch(ReadStart(g), r);
      WholeDelivers(g, r, logs);
    }
  }

  lemma WholeDelivers(g: Gate, r: Reply, logs: Logs)
    ensures Delivers(Answering(g, r, logs), Deliver(0), Dispatch(ReadStart(g), r))
  {
    assert Cut(r, 0) == r;
  }

  /** A read that completes nothing is a step too. */
  lemma PartIsStep(g: Gate, st: RecvState, logs: Logs, r: Reply, chunk: seq<Byte>)
    requires Valid(st) && 0 < |chunk| && Filled(st) + |chunk| < READ_BUF_LENGTH && !Gather(st, chunk).Whole?
    ensures var s := Answering(g, r, logs); Enabled(s, Part) && Apply(s, Part).g == OnRead(g, st, chunk).0
  {
  }
}
