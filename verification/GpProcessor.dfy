/** The reply handlers (src/gp_processor.c). Each returns the state and whether its C
    result is positive. */
module GpProcessor {
  import opened LibGate
  import opened GateState
  import opened DbLayer
  import opened AdTarget
  import opened AdCmd
  import opened CardBytes
  import opened CardPoll
  import opened LogRing

  /** A block of records: how many a reply holds, at most what `cmd_buff` has room for. */
  function RecordCount(r: Reply): (n: nat)
    ensures n * EVENT_SIZE <= CMD_BUFF_LENGTH
  {
    Min(Max(r.len, 0), CMD_BUFF_LENGTH) / EVENT_SIZE
  }

  function CbLogRead(g: Gate, r: Reply): (Gate, bool) {
    if g.target == TARGET_GET_BUFF_ADDR then LogPointers(g, r)
    else if g.target == TARGET_GET_BUFF_DATA then (LogBlock(g, r), true)
    else (g, g.target == TARGET_SET_BUFF_ADDR_DOWN)
  }

  /** The pointers have come: ask for the block they leave, unless they are bad or equal. */
  function LogPointers(g: Gate, r: Reply): (Gate, bool) {
    var up, down := FromBe16(r.buff, 0), FromBe16(r.buff, 2);
    if down > MAX_LOG_BOUND || up > MAX_LOG_BOUND then (g, false)
    else
      var l := BlockLen(up, down);
      var g1 := SetDev(g, r.src, DevAt(g, r.src).(boundDown := down, boundUp := up));
      if l == 0 then (g1, false) else (Send(g1, GetBuffData(Short, r.src, down, l)), true)
  }

  /** The block has come: run it through the loop and move the device's `down`. */
  function LogBlock(g: Gate, r: Reply): Gate {
    var dev, n := DevAt(g, r.src), RecordCount(r);
    var g1 := SetDev(g, r.src, AfterRecords(dev, g.db, Records(r.buff, n)));
    Send(g1, SetBuffAddrDown(Short, r.src, NextDown(Min(dev.boundDown, MAX_LOG_BOUND), n)))
  }

  function CbGetPollResult(g: Gate, r: Reply, cmdN: Byte): (Gate, bool) {
    if g.target == TARGET_GET_CID && cmdN == CMD_GET then
      var cid := Bin2Int(r.buff, if r.len < 0 then 8 else r.len, DevAt(g, r.src).revert);
      (Send(SetDev(g, r.src, SeeCid(DevAt(g, r.src), cid)), GetRegs(Short, r.src)), true)
    else if g.target == TARGET_GET_REGS && cmdN == CMD_REGS then
      var ev := r.buff[20];
      var g1 := if Changed(DevAt(g, r.src), ev) && IsNewCard(ev) then AdmitCard(g, r.src, ev) else g;
      (SetDev(g1, r.src, SeeRegs(DevAt(g1, r.src), ev)), true)
    else (g, false)
  }

  /** A card at the reader: open and write its record when the database knows it, else
      report it; the default report adds it everywhere. */
  function AdmitCard(g: Gate, d: DevId, ev: Byte): Gate {
    match TokenByCid(g.db, DevAt(g, d).lastCid)
    case Some(t) =>
      var (g1, ok) := AddCid(Queue(g, [TurnOn(Second, d, ev % 2)]), d, t);
      if ok then g1 else AddCidToAll(g1, t.(addr := 0)).0
    case None => AddCidToAll(g, Token(DevAt(g, d).lastCid, 0, 0xFF, 0)).0
  }

  /** `process_port_input`, for the command number the dispatcher has settled on. */
  function ProcessPortInput(g: Gate, r: Reply, cmdN: Byte): (Gate, bool) {
    match g.handler
    case LogHandler => CbLogRead(g, r)
    case PollHandler => CbGetPollResult(g, r, cmdN)
    case NoHandler => (NoteReply(g, r, cmdN), false)
  }

  /** The replies that change the device table: its byte order and limits, and its token
      bound. */
  function NoteReply(g: Gate, r: Reply, cmdN: Byte): Gate {
    if cmdN == CMD_INFO then SetDev(g, r.src, NoteInfo(DevAt(g, r.src), r.buff))
    else if cmdN == CMD_GET && g.target == TARGET_GET_TOKEN_BOUND then
      SetDev(g, r.src, DevAt(g, r.src).(boundToken := FromBe16(r.buff, 0)))
    else g
  }

  /** An information reply; models from 0x0C on have the larger memories. */
  function NoteInfo(dev: Dev, buff: Buff): Dev {
    var dev1 := dev.(revert := InterfaceType(buff) > 0);
    if buff[0] / 16 >= 0x0C then dev1.(tokenLimit := 0xFFF0, logLimit := MAX_LOG_BOUND) else dev1
  }

  /** gp_info_t: if_type2 when if_type_n is set, else if_type1. */
  function InterfaceType(buff: Buff): nat {
    if buff[2] / 8 % 2 == 1 then buff[1] / 16 else buff[1] % 16
  }
}
