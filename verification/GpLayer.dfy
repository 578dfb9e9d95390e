/** The request and response driver (src/gp_layer.c) at the level of whole frames. */
module GpLayer {
  import opened LibGate
  import opened GateState
  import opened GpQueue
  import opened AdTarget
  import opened GpProcessor

  /** The scan of `gp_send_idle` from position `pos`: the device table and position it
      leaves, and whether it stops at a device to poll. */
  function IdleScan(devices: Devices, pos: DevId, maxDevN: DevId, limit: nat): (Devices, DevId, bool)
    decreases maxDevN - pos
  {
    if pos + 1 > maxDevN then (devices, 0, false)
    else if devices[pos + 1].timeouts > limit then
      IdleScan(devices[pos + 1 := devices[pos + 1].(active := false)], pos + 1, maxDevN, limit)
    else (devices, pos + 1, true)
  }

  /** `gp_send_idle`. */
  function SendIdle(g: Gate): Gate {
    var (devices, pos, found) := IdleScan(g.devices, g.idlePos, g.maxDevN, g.maxTimeouts);
    var g1 := g.(devices := devices, idlePos := pos);
    if found then Send(g1, PollCid(pos)) else g1
  }

  /** `gp_receiv` on a timer event; `due` says that at least the timeout has passed since
      the last send. */
  function Timer(g: Gate, due: bool): Gate {
    if !due then g
    else
      var g1 := Expire(g);
      if !Empty(g1.q) then PutCmd(g1) else SendIdle(g1)
  }

  function Expire(g: Gate): Gate {
    if !g.isExpected then g
    else SetDev(g, g.dev, DevAt(g, g.dev).(timeouts := DevAt(g, g.dev).timeouts + 1)).(isExpected := false)
  }

  /** What every read does first: the answer is no longer outstanding, its device is there. */
  function ReadStart(g: Gate): Gate {
    var dev := DevAt(g, g.dev);
    var g1 := SetDev(g, g.dev, dev.(active := true, timeouts := 0, inited := true)).(isExpected := false);
    if dev.inited then g1 else Queue(g1, DevInit(g.dev, g.maxBound, g.date))
  }

  /** A whole frame with a good checksum, after `ReadStart`. */
  function Dispatch(g: Gate, r: Reply): Gate {
    if r.src != g.dev then g
    else if IsAck(r) then PutCmd(ProcessPortInput(g, r, r.buff[1]).0)
    else if IsReplyFrame(r) then PutCmd(g)
    else
      var (g1, done) := ProcessPortInput(g, r, r.cmdN);
      if done then g1 else PutCmd(g1)
  }

  function FrameIn(g: Gate, r: Reply): Gate {
    Dispatch(ReadStart(g), r)
  }

  /** `gp_get_dev_logs`: queue a log read for every active device from `d` on. */
  function LogTick(g: Gate, d: nat): Gate
    requires d >= 1
    decreases 256 - d
  {
    if d > g.maxDevN then g
    else LogTick(if DevAt(g, d).active then Queue(g, [GetBuffAddr(Second, d, LogHandler)]) else g, d + 1)
  }

  /** `gp_all_dev_enable`: forget all timeouts. */
  function EnableAll(g: Gate): Gate {
    g.(devices := seq(256, i requires 0 <= i < 256 =>
                    if i == 0 then g.devices[0] else g.devices[i].(timeouts := 0)))
  }
}
