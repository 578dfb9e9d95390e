/** The commands of src/ad_target.c as the bytes they carry. Those that concern one of
    the two token banks are issued as a pair, bank 0 first. */
module AdTarget {
  import opened LibGate

  const CMD_GET: Byte := 0x04
  const CMD_SET: Byte := 0x05
  const CMD_REGS: Byte := 0x06
  const CMD_INFO: Byte := 0x09

  /** The struct filled for bank 0, then changed in place for bank 1. */
  function BankPair(z: Cmd): (zs: seq<Cmd>)
    requires z.data != []
    ensures |zs| == 2
  {
    [z, z.(bank := 1, data := z.data[0 := 1])]
  }

  function GetInfo(q: Class, dst: DevId): Cmd {
    Cmd(TARGET_INFO, NoHandler, 0, false, q, dst, CMD_INFO, [])
  }

  function SoftReset(q: Class, dst: DevId): Cmd {
    Cmd(TARGET_SOFT_RESET, NoHandler, 0, false, q, dst, 0x0B, [])
  }

  function TurnOn(q: Class, dst: DevId, subdev: Byte): Cmd {
    Cmd(TARGET_TURN_ON, NoHandler, 0, false, q, dst, 0x07, [subdev])
  }

  function GetDate(q: Class, dst: DevId): Cmd {
    Cmd(TARGET_GET_DATE, NoHandler, 0, false, q, dst, CMD_GET, [0x00, 0xD0, 7, 0x00, 0x00])
  }

  function SetDate(q: Class, dst: DevId, date: Rec): Cmd {
    Cmd(TARGET_SET_DATE, NoHandler, 0, false, q, dst, CMD_SET, [0x00, 0xD0, 8, 0x00, 0x00] + date)
  }

  /** The poll `gp_send_idle` makes. */
  function PollCid(dst: DevId): Cmd {
    Cmd(TARGET_GET_CID, PollHandler, 0, true, Short, dst, CMD_GET, [0x00, 0xD0, 6, 0x00, 0x0C])
  }

  function GetRegs(q: Class, dst: DevId): Cmd {
    Cmd(TARGET_GET_REGS, NoHandler, 0, true, q, dst, CMD_REGS, [0x15, 0x28])
  }

  function GetBuffAddr(q: Class, dst: DevId, handler: Handler): Cmd {
    Cmd(TARGET_GET_BUFF_ADDR, handler, 0, false, q, dst, CMD_GET, [0x00, 0xD0, 4, 0x00, 0x08])
  }

  function GetBuffData(q: Class, dst: DevId, addr: Word, l: Byte): Cmd {
    Cmd(TARGET_GET_BUFF_DATA, NoHandler, 0, false, q, dst, CMD_GET, [0x02, 0xA0, l] + ToBe16(addr))
  }

  function SetBuffAddrDown(q: Class, dst: DevId, addr: Word): Cmd {
    Cmd(TARGET_SET_BUFF_ADDR_DOWN, NoHandler, 0, false, q, dst, CMD_SET,
        [0x00, 0xD0, 2, 0x00, 0x0A] + ToBe16(addr))
  }

  function GetTokenBound(q: Class, dst: DevId, handler: Handler): seq<Cmd> {
    BankPair(Cmd(TARGET_GET_TOKEN_BOUND, handler, 0, false, q, dst, CMD_GET, [0x00, 0xA0, 2, 0x00, 0xBE]))
  }

  function SetTokenBound(q: Class, dst: DevId, addr: Word): seq<Cmd> {
    BankPair(Cmd(TARGET_SET_TOKEN_BOUND, NoHandler, 0, false, q, dst, CMD_SET,
                 [0x00, 0xA0, 2, 0x00, 0xBE] + ToBe16(addr)))
  }

  /** One token record; `record` is a gp_token_rec_t. */
  function SetToken(q: Class, dst: DevId, addr: Word, record: Rec): seq<Cmd> {
    BankPair(Cmd(TARGET_SET_TOKEN, NoHandler, 0, false, q, dst, CMD_SET,
                 [0x00, 0xA0, 8] + ToBe16(addr) + record))
  }

  function GetTimes(q: Class, dst: DevId): seq<Cmd> {
    BankPair(Cmd(TARGET_GET_TIMES, NoHandler, 0, false, q, dst, CMD_GET, [0x00, 0xA0, 2, 0x00, 0x00]))
  }

  /** With the times `gp_cfg` holds. */
  function SetTimes(q: Class, dst: DevId): seq<Cmd> {
    BankPair(Cmd(TARGET_SET_TIMES, NoHandler, 0, false, q, dst, CMD_SET,
                 [0x00, 0xA0, 2, 0x00, 0x00] + [150, 200, 0, 0]))
  }

  function PrepLoad(q: Class, dst: DevId, enable: bool): Cmd {
    Cmd(TARGET_PREP_LOAD, NoHandler, 0, false, q, dst, 0x66, [if enable then 0x73 else 0])
  }

  /** What `gp_dev_init` queues for a device heard for the first time. */
  function DevInit(dst: DevId, bound: Word, date: Rec): seq<Cmd> {
    [SetDate(Second, dst, date)] + SetTimes(Second, dst) + SetTokenBound(Second, dst, bound)
    + [GetInfo(Second, dst)] + GetTokenBound(Second, dst, NoHandler) + GetTimes(Second, dst)
    + [GetDate(Second, dst)]
  }

  // ----- reading commands back from their bytes, as a device does -----

  /** `begin` of gp_port_cmd4_t. */
  function Begin(data: seq<Byte>): Word
    requires |data| >= 5
  {
    FromBe16(data, 3)
  }

  /** A write that overlaps the log pointers at 0x08..0x0B of memory 0xD0. */
  predicate WritesLogPointers(cmdN: Byte, data: seq<Byte>) {
    cmdN == CMD_SET && |data| >= 5 && data[1] == 0xD0 && Begin(data) < 0x0C && Begin(data) + data[2] > 0x08
  }

  predicate AsksLogPointers(cmdN: Byte, data: seq<Byte>) {
    cmdN == CMD_GET && data == [0x00, 0xD0, 4, 0x00, 0x08]
  }

  /** A read of log memory. */
  predicate AsksLogData(cmdN: Byte, data: seq<Byte>) {
    cmdN == CMD_GET && |data| == 5 && data[0] == 0x02 && data[1] == 0xA0
  }

  predicate SetsDown(cmdN: Byte, data: seq<Byte>) {
    cmdN == CMD_SET && |data| == 7 && data[..5] == [0x00, 0xD0, 2, 0x00, 0x0A]
  }

  /** A write to a bank of token memory. */
  predicate WritesTokens(cmdN: Byte, data: seq<Byte>, bank: Byte) {
    && cmdN == CMD_SET && |data| >= 5 && data[0] == bank && data[1] == 0xA0
    && data[2] <= |data| - 5 && Begin(data) + data[2] <= U16
  }

  /** A command that writes no slot of token memory. */
  predicate SparesSlots(z: Cmd) {
    WritesTokens(z.cmdN, z.data, 0) || WritesTokens(z.cmdN, z.data, 1) ==>
      Begin(z.data) + z.data[2] <= START_TICKET_BOUND
  }

  lemma BuffDataBytes(q: Class, dst: DevId, addr: Word, l: Byte)
    ensures var z := GetBuffData(q, dst, addr, l);
            AsksLogData(z.cmdN, z.data) && z.data[2] == l && Begin(z.data) == addr
  {
    Be16RoundTrip([0x02, 0xA0, l], addr, []);
    assert [0x02, 0xA0, l] + ToBe16(addr) + [] == [0x02, 0xA0, l] + ToBe16(addr);
  }

  lemma SetDownBytes(q: Class, dst: DevId, addr: Word)
    ensures var z := SetBuffAddrDown(q, dst, addr);
            SetsDown(z.cmdN, z.data) && WritesLogPointers(z.cmdN, z.data) && FromBe16(z.data, 5) == addr
  {
    var head: seq<Byte> := [0x00, 0xD0, 2, 0x00, 0x0A];
    Be16RoundTrip(head, addr, []);
    assert head + ToBe16(addr) + [] == head + ToBe16(addr);
  }
}
