/** Constants and records shared by the whole library (libgate.h, gp_layer.h,
    ad_target.h, db_layer.h). */
module LibGate {

  /** uint8_t as a number; the bitwise operators the sources use are `Xor8` and `HighNibble`. */
  type Byte = n: nat | n < 256

  const GP_INIT: Byte := 0xFA
  const GP_END: Byte := 0xF5
  const GP_ESC: Byte := 0xFF
  const GP_CTRL: Byte := 0x01
  const GP_REPLY: Byte := 0x55
  const GP_REPLY_ACK: Byte := 0x55

  const SEND_BUF_LENGTH: nat := 130
  const READ_BUF_LENGTH: nat := 135
  const CMD_BUFF_LENGTH: nat := 120

  const START_TICKET_BOUND: nat := 0x00C0
  const TICKET_SIZE: nat := 8
  const MAX_LOG_BOUND: nat := 0x8000
  const EVENT_SIZE: nat := 8
  const EV_BLOCK_SIZE: nat := 8
  const U16: nat := 0x1_0000

  /** uint16_t. */
  type Word = n: nat | n < 0x1_0000

  const TARGET_INFO: nat := 1
  const TARGET_SOFT_RESET: nat := 2
  const TARGET_TURN_ON: nat := 4
  const TARGET_GET_REGS: nat := 10
  const TARGET_PREP_LOAD: nat := 12
  const TARGET_GET_CID: nat := 101
  const TARGET_GET_BUFF_ADDR: nat := 102
  const TARGET_SET_BUFF_ADDR_DOWN: nat := 103
  const TARGET_GET_BUFF_DATA: nat := 104
  const TARGET_GET_TOKEN_BOUND: nat := 112
  const TARGET_SET_TOKEN_BOUND: nat := 113
  const TARGET_SET_TOKEN: nat := 115
  const TARGET_GET_DATE: nat := 121
  const TARGET_SET_DATE: nat := 122
  const TARGET_GET_TIMES: nat := 201
  const TARGET_SET_TIMES: nat := 202

  /** An index into the device table; also a device's address on the line. */
  type DevId = d: nat | d < 256

  /** The class a command is issued in: sent at once, or one of two queues. */
  datatype Class = Short | First | Second

  /** The reply callbacks the library installs. */
  datatype Handler = NoHandler | PollHandler | LogHandler

  /** cmd_send_t; `data` is the used part of `cmd_buff`. */
  datatype Cmd = Cmd(target: nat, handler: Handler, bank: nat, polling: bool, queue: Class,
                     dst: DevId, cmdN: Byte, data: seq<Byte>)

  /** gp_event_t: ev_code, addr (two bytes, big end first), five date bytes. */
  type Rec = r: seq<Byte> | |r| == 8 witness [0, 0, 0, 0, 0, 0, 0, 0]

  /** What `cb_dev_ev_handler` is called with; `rec` stands for the date fields. */
  datatype Event = Event(rec: Rec, addr: nat, cid: nat, dup: nat)

  /** What the poll handler acts on: a register event and the last card read. */
  datatype CardAction = CardAction(ev: Byte, cid: nat)

  /** gp_dev. The last three fields are histories: the records run through the
      event loop, the events reported, and the card actions taken, in order. */
  datatype Dev = Dev(active: bool, timeouts: nat, inited: bool, revert: bool,
                     tokenLimit: nat, logLimit: nat, boundUp: Word, boundDown: Word, boundToken: Word,
                     lastCid: nat, newCid: bool, lastEv: Byte, lastRec: Rec,
                     stream: seq<Rec>, events: seq<Event>, actions: seq<CardAction>)

  const ZERO_REC: Rec := [0, 0, 0, 0, 0, 0, 0, 0]

  /** A table entry before `gp_init`. */
  const NEW_DEV: Dev := Dev(false, 0, false, false, 0, 0, 0, 0, 0,
                            0, false, 0, ZERO_REC, [], [], [])

  /** And after it: entry 0 gets no token bound. */
  function FreshDev(d: DevId): Dev {
    if d == 0 then NEW_DEV else NEW_DEV.(boundToken := START_TICKET_BOUND)
  }

  type Devices = s: seq<Dev> | |s| == 256 witness seq(256, _ => NEW_DEV)

  /** db_token_rec_t without the constant zone mask. */
  datatype Token = Token(cid: nat, attr: Byte, mask: Byte, addr: nat)

  function Max(a: int, b: int): int { if a > b then a else b }

  function Min(a: int, b: int): int { if a < b then a else b }

  /** htobe16 followed by memcpy: the two bytes of a 16-bit value, big end first. */
  function ToBe16(a: Word): (s: seq<Byte>)
    ensures |s| == 2
  {
    [a / 256, a % 256]
  }

  /** be16toh of two bytes in memory. */
  function FromBe16(s: seq<Byte>, i: nat): Word
    requires i + 1 < |s|
  {
    var hi: nat, lo: nat := s[i], s[i + 1];
    hi * 256 + lo
  }

  lemma Be16RoundTrip(head: seq<Byte>, a: Word, tail: seq<Byte>)
    ensures FromBe16(head + ToBe16(a) + tail, |head|) == a
  {
    var s := head + ToBe16(a) + tail;
    assert s[|head|] == a / 256 && s[|head| + 1] == a % 256;
  }
}
