/** The program's globals as one value: send_mess, gp_cfg, the device table, the queues
    and the database. The receive buffer is in module Receiver. */
module GateState {
  import opened LibGate
  import opened GpQueue
  import opened DbLayer

  /** `wire` is a history: every command `gp_send` has written to the line. */
  datatype Gate = Gate(
    isExpected: bool, target: nat, bank: nat, handler: Handler, dev: DevId, polling: bool,
    devices: Devices, q: Queues, db: Db,
    maxBound: Word, maxDevN: DevId, maxTimeouts: nat, idlePos: DevId, date: Rec,
    wire: seq<Cmd>)

  type Buff = s: seq<Byte> | |s| == CMD_BUFF_LENGTH witness seq(CMD_BUFF_LENGTH, _ => 0)

  /** A decoded frame as `gp_receiv` dispatches it: `buff` is all of
      `receiv_mess.cmd_buff`, of which a data reply filled the first `len` bytes. */
  datatype Reply = Reply(src: DevId, cmdN: Byte, buff: Buff, len: int)

  predicate IsReplyFrame(r: Reply) {
    r.cmdN == GP_REPLY
  }

  predicate IsAck(r: Reply) {
    r.cmdN == GP_REPLY && r.buff[0] == GP_REPLY_ACK
  }

  /** The command number a reply is handled under. */
  function CmdOf(r: Reply): Byte {
    if IsAck(r) then r.buff[1] else r.cmdN
  }

  /** A data reply taken `missing` bytes short. The length of a reply frame is not used. */
  function Cut(r: Reply, missing: nat): Reply {
    if IsReplyFrame(r) then r else r.(len := r.len - missing)
  }

  /** After `gp_init`: nothing sent or queued, and a fresh device table. */
  ghost predicate Fresh(g: Gate) {
    && g.wire == [] && g.target == 0 && g.handler == NoHandler && !g.isExpected && Empty(g.q)
    && (forall d: DevId :: g.devices[d] == FreshDev(d))
  }

  /** And the allocator's seed, for the highest mapped address `m`. */
  ghost predicate Seeded(g: Gate, m: nat) {
    IsMaxAddr(g.db, m) && g.maxBound == (m + TICKET_SIZE) % U16
  }

  function DevAt(g: Gate, d: DevId): Dev {
    g.devices[d]
  }

  function SetDev(g: Gate, d: DevId, dev: Dev): Gate {
    g.(devices := g.devices[d := dev])
  }

  function Queue(g: Gate, zs: seq<Cmd>): Gate {
    g.(q := InCmds(g.q, zs))
  }

  /** `gp_send`: a command without a handler of its own inherits the current one only when
      it is sent at once. */
  function Send(g: Gate, z: Cmd): Gate {
    g.(isExpected := true, target := z.target, bank := z.bank, dev := z.dst, polling := z.polling,
       handler := if z.handler != NoHandler then z.handler else if z.queue != Short then NoHandler else g.handler,
       wire := g.wire + [z])
  }

  /** `gp_put_cmd`. */
  function PutCmd(g: Gate): Gate {
    if Empty(g.q) then g else Send(g.(q := Rest(g.q)), Head(g.q))
  }
}
