# libgate: a Dafny model of the host side of the gate-controller protocol

libgate drives a serial line of access-control gate controllers. The host polls the
controllers for cards, drains the event log each of them keeps in a ring, and writes card
records to addresses it hands out itself. This project models that host, the line and the
devices, and proves what the library is for: no event is skipped, a card record never lands
on another card's address, and what was written is what a device reads.

`dafny verify dfyconfig.toml` checks everything.

## How it is built

Code that the C sources run step by step is written twice. The functions of `GateState`,
`GpLayer`, `GpProcessor`, `AdCmd`, `GpQueue`, `DbLayer` and `Reads` say what one operation
makes of the program's globals, as a value. The class `Program.Globals` holds those globals
as fields and arrays, and each of its methods runs the operation in place and is proved to
leave exactly the state of the function. The laws are then proved about the functions.

| modules | what they hold |
|---|---|
| `LibGate`, `Memory` | constants, records, stores into byte buffers |
| `Crc8`, `Stuffing`, `CardBytes`, `Frames` | the frame codec |
| `Receiver`, `Reads` | gathering reads into a frame, decoding it in place, dispatching it |
| `Delivery` | the reads of a frame as steps of a run |
| `GpQueue`, `DbLayer`, `AdTarget` | the command queue, the token database, command building |
| `GateState`, `GpLayer`, `GpProcessor`, `AdCmd`, `CardPoll`, `LogRing` | the driver, the reply handlers, adding cards, polling, the log ring |
| `Program` | all of that in place |
| `LineSystem`, `Housekeeping`, `LogDrain`, `CardRuns`, `Guarantees` | program, line and devices as one system; its invariant; results over every run |
| `EventMeaning`, `DriverLaws`, `DoorLaws`, `WriteLaws`, `ReplyLaws` | what each operation does, said over its inputs, the line, the queues and the bytes a device reads, without the functions that compute it |
| `TokenSafety`, `Allocator`, `Reload`, `ReloadDrain`, `RoundRobin` | card records, address allocation, reloading a device, idle polling |

A run of the system interleaves, in any order and number: a device logs a record; the
request on the line is answered, or refused; what is on the line is lost; the answer
arrives whole, in part, or with a bad checksum or source; a data reply arrives but is taken
some bytes short; the timer fires; the application adds cards, reloads a device, queues
commands of its own, scans logs or changes settings. `Delivery.DataFrameIsStep` and
`Delivery.ReplyFrameIsStep` show that a frame on the line, in whatever reads it arrives, always
acts like one of these deliveries or like a bad checksum.

## Assumptions

- A device answers a read (0x04) with data or a refusal and a write (0x05) with a reply
  frame. An acknowledged write has been applied; a refused or lost one may or may not have
  been. Other replies are arbitrary.
- A reply arrives before the timeout or is lost.
- A device's log pointers are multiples of 8 below 0x8000, equal pointers mean an empty
  log, and the device does not overrun `down`.
- Addresses given by callers and stored in the database fit 16 bits. Card ids are any
  numbers; 0 is what an unmapped address reads as, and results that need a card other than
  0 say so.
- Port writes, allocation and database puts succeed.
- The bytes behind `receiv_mess.buf` can be read: the receive memory has 270 bytes, of
  which the buffer is the first 135.
- Commands an application queues fit the send buffer when every byte is stuffed, do not
  write a device's log pointers, do not use the targets of the log chain's second and third
  step, and are not token records (those come from the card operations). The results of
  `ReloadDrain` also need that they spare the slots of token memory. A pointer request
  queued under the chain's target has the bytes `ad_get_buff_addr` gives it.
- Reply callbacks are the library's two or none.

## Results that differ from what one might expect

- `memcpy_unesc` counts turns, not bytes, so a region with `e` escapes is decoded with `e`
  turns too many. Decoding undoes stuffing if and only if none of the `e` bytes after the
  region is an ESC (`Stuffing.UnescUndoesEsc`). In `gp_receiv` the first two of them are END
  and the zero byte, so replies with at most two escapes are always accepted. With more, a
  stale ESC left in the buffer by a longer reply shortens the length, and the frame is
  dropped, or still accepted when its shortened part happens to sum to zero
  (`Receiver.ReplyAccepted`, `Receiver.TakenShort`). A log block taken short loses no record,
  since the pointer write stops behind the whole records left, but the cycle moves `down` on
  if and only if there is one (`Guarantees.CutBlockMoves`). A reply of one record cut by a byte
  moves nothing, and a read without INIT in front can leave the bytes that cut it
  (`Reads.StallingReads`); as decoding leaves the bytes behind the frame
  alone, the same reply meets them again (`Receiver.StaleBytesStay`). So a drain can stall on
  such a block, or on one that is dropped, until other bytes reach that part of the buffer.
  The comment at src/gp_util.c:64 allows source and destination to be the same; that part
  holds.
- One call of `gp_receiv` can send two commands: exactly when an ACK reaches a handler that
  sends, with a command waiting (`Guarantees.TwoSendsOnlyOnAck`). A device that never
  acknowledges a read rules that out, and stop-and-wait then holds
  (`Guarantees.StopAndWait`).
- Two adds without an address get two addresses if and only if the first add raises the
  global bound: some active device's own bound is not past it and 16 bits leave room for a
  further slot. Otherwise the second card is refused (`Allocator.SecondAddStored`).
- The seed of `gp_init` is behind every mapped address if and only if the highest one
  leaves room for a slot in 16 bits (`Allocator.SeedIsBehind`). Otherwise it has wrapped to
  below the first slot, and records go wrong: with card 5 at 0xFFF8 the next card is stored at
  address 0, and written to the devices at addresses that are not mapped
  (`Guarantees.WrappedSeedMisplaces`). From every start with a wrapped seed and nothing mapped
  at the first slot some run of four steps goes wrong that way (`Guarantees.WrappedSeedRun`).
  The results about records start from `gp_init` with room, which is exactly when their
  invariant holds there (`Guarantees.InitTokens`). The results about the log, the line and card
  actions need no such start.
- `cmd_add_cid`, called on its own, does not look whether its address is mapped at all. It
  keeps the records right if and only if the address it chooses is refused, or is already
  mapped to a card with the same six bytes (`TokenSafety.AddCidKeepsRecords`,
  `TokenSafety.AddCidMisplaces`).
- `cmd_add_tocken_to_all` sends a known card's new attributes to the devices but does not
  save them (`Allocator.KnownCardKeepsOldAttributes`). After a reload and a full drain a device
  holds them if and only if the call has just written them to it, or the last record that was
  still waiting for it had them, or, with none waiting, the card was new to the database or had
  them already (`ReloadDrain.ReloadedAttributes`). So a device that was not active then, and
  one reloaded later, get the old ones.
- A token record is encoded in the byte order the device is thought to have when it is
  queued. If an information reply then turns the order, the device reads another card from
  the waiting record, unless the card's bytes are the same both ways
  (`TokenSafety.InfoReplyStrandsRecord`, `TokenSafety.CardOneStranded`). A reload does not
  repair that while the record still waits: second-class records are sent after it, and
  overwrite what it wrote (`ReloadDrain.ReloadIsOverwritten`, `ReloadDrain.CardOneOverwritten`).
  A reload leaves a card readable if and only if the last record waiting for its slot, if any,
  is in the device's present order (`ReloadDrain.ReloadRestores`). From a point where all
  records waiting for a device are in its order, whichever that is, they and all later ones read
  right while no reply turns it (`Guarantees.RecordsReadRight`).
- `cmd_add_cid_to_all` and `cmd_add_tocken_to_all` return 1 for a card the database has
  refused if and only if no device is active (`Allocator.AddReportsSuccess`,
  `Allocator.AddTokenReportsSuccess`).
- A mapped address changes hands if and only if it belonged to card 0 and another card is
  added at it (`DbLayer.OwnerKept`), so a record of card 0 can lose its address
  (`DbLayer.CardZeroLosesItsAddress`).

## Model

| member | source | states |
|---|---|---|
| Guarantees.DownPassesOnlySeen | src/gp_processor.c:131-201 | over every run, with losses, refusals, corrupted and shortened replies, and records logged meanwhile: the event loop has run only records of the device's log, every record the device's `down` has passed has been through the loop, and no record is first seen before all earlier ones |
| Guarantees.LossFreeStreamIsLogPrefix | src/gp_processor.c:131-201 | over every run without loss, replies taken short included, the records run through the loop are exactly a prefix of the log: each once, in order |
| Guarantees.EventsAreCollapsedStream | src/gp_processor.c:161-192 | over every run the events handed to `cb_dev_ev_handler` are the records run, minus each whose ev_code and addr repeat those of the record just before it |
| EventMeaning.EventsAreTrue | src/gp_processor.c:161-192 | over every run, each event in a device's history was handed over by some step: it is one of the records that step ran and no repeat of the one before it, its address is the record's two bytes big end first, its card is what that address was mapped to then, and its `dup` is the number of repeats before it in the block |
| EventMeaning.StepReported | src/gp_processor.c:163-192 | every step of a reachable state reports, for the records it runs, exactly the events that say so, in order |
| EventMeaning.AddrOfLayout | src/gp_layer.h:208-218 | a record with address a between code and date has address a |
| Guarantees.ChainIsUnbroken | src/gp_layer.c:132-140 | over every run: while a block request or pointer write is the last command, the handler is `cb_log_read` and `bound_down` is the address of this chain's block; on the line a block request directly follows its device's pointer request, and a pointer write directly follows the block request whose records it passes and names the end of the records just run |
| Guarantees.StopAndWait | src/gp_layer.c:256-291 | after every run, any next step sends at most one command, only onto an empty line and only while `is_expected` is 0, so at most one request or answer is ever outstanding |
| Guarantees.TwoSendsOnlyOnAck | src/gp_layer.c:374-409 | for any frame at all one call sends at most two commands, and two if and only if an ACK comes to a handler that sends while a command waits |
| Guarantees.FrameSendsUnexpected | src/gp_layer.c:299-409 | for any state and frame, a call of `gp_receiv` that does not send twice runs `gp_send` with `is_expected` 0 |
| DriverLaws.TimerSends | src/gp_layer.c:256-291 | in every state a due timer counts the missed answer, and puts the front of the first class, else of the second, on the line, leaving the rest; only with both lists empty does it poll, the next device in range whose missed answers are within the limit, and makes those passed over inactive |
| DriverLaws.TimersEmptyQueue | src/gp_queue.c:69-98 | with nothing added and no answer, as many due timers as commands wait send them all, the first class in order and then the second |
| DriverLaws.SendStateFollowsWire | src/gp_layer.c:129-145 | over every run the target, bank, device and polling flag are those of the last command sent, and the handler is that of the last command that brought one unless a queued one without has been sent since |
| DriverLaws.ReadStartHeard | src/gp_layer.c:299-310 | a read makes its device active with no missed answers, and leaves other devices and waiting commands alone |
| DriverLaws.ForeignIgnored | src/gp_layer.c:367-373 | a frame from another device is only a sign of life |
| DriverLaws.RefusalSendsNext | src/gp_layer.c:380-409 | after a refusal the next waiting command is sent, whatever the handler |
| DriverLaws.UnhandledSendsNext | src/gp_layer.c:389-409 | and after a reply without a handler |
| DriverLaws.EmptyLogSendsNext | src/gp_processor.c:138-159 | and after pointers that are equal or bad |
| DriverLaws.CycleEndSendsNext | src/gp_processor.c:196-199 | and after the acknowledged pointer write |
| DriverLaws.CardReadingAsksRegs | src/gp_processor.c:69-75 | a card reading is followed at once by one request for the registers of its device, and the poll handler stays |
| DriverLaws.RegsReadingSendsNothing | src/gp_layer.c:391 | a register reading sends nothing; what waits goes out at the next due timer |
| DriverLaws.EmptyReadResets | src/gp_layer.c:331-337 | a read of no bytes puts one soft reset for the last device on the line, and no waiting command leaves its list |
| DriverLaws.LogScanAsks | src/gp_layer.c:417-432 | a log scan queues one pointer request for each active device in range, in order, and changes nothing else |
| DriverLaws.DeviceScanForgets | src/gp_layer.c:434-448 | a device scan clears the missed answers of devices 1 to 255 and changes nothing else |
| Guarantees.CutBlockPassesLess | src/gp_processor.c:160-195 | a block reply taken short runs only its whole records, in the history from `down` on, and the pointer write sent stops behind them |
| Guarantees.CutBlockMoves | src/gp_processor.c:160-195 | once that write is acknowledged, `down` has moved on by the whole records left, so if and only if at least eight bytes were |
| Guarantees.CycleAdvances | src/gp_processor.c:131-201 | pointers, block and acknowledged pointer write move the device's `down` on by exactly one block |
| Guarantees.DrainedAfterCycles | src/gp_processor.c:131-201 | with nothing logged meanwhile the log is empty after as many cycles as DrainCycles counts |
| Guarantees.TokensCarryTheirCard | src/ad_cmd.c:27-106 | over every run mixing all ways of adding cards, `cmd_add_cid` on its own only at an address in order: each token record queued or sent names a mapped address and carries the card mapped there now, or card 0 if the database has a record of it; it is in its device's byte order if no information reply turns that; the two database maps agree and no address changes hands |
| Guarantees.RecordsCarryTheirCard | src/ad_cmd.c:27-106 | over every such run from `gp_init` with room for a slot, and without a record of card 0 at its end, every token record queued or sent carries the card its address is mapped to, in one of the two byte orders |
| Guarantees.RecordsReadRight | src/ad_cmd.c:39-49 | once a run has come to a point where all records waiting for a device are in its present byte order, of either kind, every record for it that waits or is sent from then on, read in its own order, gives the card's low 48 bits, while no later information reply turns the order |
| Guarantees.NoneWaiting | src/ad_cmd.c:39-49 | while no token record waits for a device that point is reached, whatever order an information reply has named and whatever was sent before |
| Guarantees.InitTokens | src/gp_layer.c:469-487 | the state after `gp_init`, for a database whose maps agree, satisfies what TokensCarryTheirCard starts from if and only if the highest mapped address leaves room for a slot in 16 bits |
| Guarantees.WrappedSeedMisplaces | src/gp_layer.c:483 | with card 5 at 0xFFF8 the seed is 0: the next card is stored at address 0, and a record for an unmapped address waits |
| Guarantees.WrappedSeedRun | src/gp_layer.c:483 | from every start with a wrapped seed and the first slot unmapped, a run of four steps that asks for nothing out of order leaves a record waiting for an unmapped address |
| Guarantees.LastSlotDbSound | src/db_layer.c:228-244 | the maps of that database agree, and its highest address is 0xFFF8 |
| LogDrain.StepInv | src/gp_processor.c:131-201 | every step of the system, shortened deliveries included, keeps the drain invariant: ring, history, message on the line, chain and reports agree |
| LogDrain.AnswerRequest | src/gp_processor.c:133-195 | a request that is in order is answered in order, and an applied pointer write passes only seen records |
| LogDrain.BlockAnswer | src/gp_processor.c:160-163 | the records in a block reply are those logged from the device's `down` on, in order |
| LogDrain.PointersArrive | src/gp_processor.c:133-159 | pointers on the line lead to a block request from the device's own `down` for as many whole records as wait before the ring's end, at most eight, or to none when the log is empty |
| LogDrain.NoSkipCovers | src/gp_processor.c:160-195 | a history that never runs ahead of itself contains every record below its reach |
| LogRing.RingArithmetic | src/gp_processor.c:144-195 | for the pointers a device holds, a block is whole records, at most 64 bytes, inside the ring, and the address written back is that of the record after it |
| LogRing.RingBounds | src/gp_processor.c:138-195 | for any pointers the code lets through: at most 64 bytes, never beyond 0x8000, nothing asked for exactly when the pointers are equal or `down` is 0x8000, and the address written back behind whole records wraps there |
| LogRing.DrainCycles | src/gp_processor.c:144-195 | with nothing appended a drain takes one cycle for each eight records, counted before and after the ring's end |
| LogRing.ReportedCollapses | src/gp_processor.c:165-192 | comparing with the last kept record reports the same records as comparing with the one just before |
| LogRing.AfterRecordsReports | src/gp_processor.c:161-192 | the reports are those of the whole stream however it is split into blocks |
| LogRing.ReportedCounts | src/gp_processor.c:163-192 | in each block reported plus repeated is all, and the `dup` of a report is the number of repeats before it |
| LogRing.RecordsOfLayout | src/gp_layer.h:208-218 | records laid out eight bytes apart are read back as they were |
| Reads.DataReplyDispatched | src/gp_layer.c:314-409 | from bytes to handler: a data reply that meets no stale ESC is dispatched with its own source, command, payload and length, after any split into reads and whatever the buffer held |
| Reads.DataReplyTaken | src/gp_layer.c:314-409 | whatever stale bytes are met: a data reply is dispatched with its own source, command and payload and a length short by a known number of bytes, or is dropped exactly when the shortened part does not sum to zero |
| Reads.ReplyFrameTaken | src/gp_layer.c:374-388 | an ACK, NACK or error frame is dispatched with what it says, or dropped by the same rule |
| Reads.StallingReply | src/gp_layer.c:347-391 | a block reply of one record that is good one byte short, and so holds no whole record |
| Reads.StallingReads | src/gp_layer.c:338-391 | from any empty buffer: after a read without INIT that leaves an ESC behind, that reply in any reads is dispatched with its payload but without a whole record |
| Delivery.DataFrameIsStep | src/gp_layer.c:293-415 | a data frame in any reads, whatever the buffer held, takes the program where a delivery of its reply, whole or cut, or a rejection does |
| Delivery.ReplyFrameIsStep | src/gp_layer.c:293-415 | and so for an ACK, NACK or error frame |
| Delivery.PartIsStep | src/gp_layer.c:293-397 | a read that completes no frame takes the program where a part of an answer does |
| Reads.SplitDispatch | src/gp_layer.c:293-397 | a frame arriving in several reads acts as one dispatch of the gathered frame |
| Reads.OnReadKeepsValid | src/gp_layer.c:314-397 | every read keeps: the cursor is null or at the filled length, INIT in front, no END in the filled part |
| Reads.ReadStartTwice | src/gp_layer.c:299-310 | the bookkeeping before a read acts once however many reads follow |
| Receiver.SplitInvariant | src/gp_layer.c:314-397 | however a frame is split into non-empty reads, the buffer (stale bytes included) and the END found are those of a single read |
| Receiver.GatherKeepsValid | src/gp_layer.c:338-397 | gathering keeps the reassembly invariant, and a whole frame ends in END inside the buffer |
| Receiver.ReplyAccepted | src/gp_layer.c:347-365 | a reply frame's body always ends up decoded at id_ctrl; the length it is taken at is its own if and only if the extra turns meet no stale ESC, is given exactly otherwise, and the frame is good if and only if that many bytes sum to zero |
| Receiver.FewEscapesAccepted | src/gp_layer.c:347-365 | replies with at most two escapes are accepted whatever the buffer held |
| Receiver.TakenShort | src/gp_util.c:65-91 | a frame with three escapes and a last byte 0 is good one byte short when an ESC and a known code lie two bytes behind END |
| Receiver.StaleBytesStay | src/gp_layer.c:347-354 | decoding a reply leaves the bytes behind its frame alone, so the same reply is taken at the same length again |
| Receiver.ScanFits | src/gp_util.c:65-91 | the decoding loop reads at most two bytes a turn, so it stays in the receive memory |
| Stuffing.MemcpyEsc | src/gp_util.c:32-62 | writes the stuffed bytes and a zero byte, changes nothing else, and returns their number |
| Stuffing.MemcpyUnesc | src/gp_util.c:65-91 | the in-place loop, also with source and destination in one buffer: memory and returned length are those of the turns run over the original bytes |
| Stuffing.ScanEsc | src/gp_util.c:65-91 | turns over a stuffed string first give the string, then go on behind it |
| Stuffing.UnescUndoesEsc | src/gp_util.c:32-91 | the decoded bytes start with the original, and the returned length is its length if and only if no byte the extra turns may read is an ESC |
| Stuffing.StaleEscShortensFrame | src/gp_util.c:65-91 | three escapes and an ESC two bytes behind END give a length one short |
| Stuffing.EscConcat | src/gp_util.c:32-62 | stuffing goes byte by byte: the stuffing of two strings joined is the two stuffings joined |
| Crc8.Crc8Xor | src/gp_util.c:22-30 | the exclusive or of the region, its first byte read even for length 0 |
| Crc8.ChecksumCloses | src/gp_layer.c:147 | one byte and no other makes the region sum to zero |
| Crc8.SingleByteDetected | src/gp_util.c:22-30 | replacing a byte of a region that sums to zero keeps it zero only if the byte is the same |
| Frames.RequestFlags | src/gp_layer.c:142-151 | a request has one INIT, first, and one END, last |
| Frames.RequestDecodes | src/gp_layer.c:146-151 | unstuffing behind the two header bytes gives dst, cmd_n, payload and checksum back |
| Frames.RequestChecked | src/gp_layer.c:147 | cmd_n to checksum sum to zero, and any change of one byte there is noticed |
| Frames.RequestFrameInjective | src/gp_layer.c:142-153 | a frame determines destination, command number and payload |
| CardBytes.Int2Bin | src/gp_util.c:160-165 | stores exactly the `len` bytes, and reading them back gives the value modulo the width |
| CardBytes.Bin2IntMeaning | src/gp_util.c:150-158 | swapping and shifting reads the bytes big end first |
| CardBytes.Int2BinMeaning | src/gp_util.c:160-165 | swapping and shifting stores the low bytes big end first |
| CardBytes.Bin2IntUndoesInt2Bin | src/gp_util.c:150-165 | for lengths 1 to 8 and both orders, the value modulo 256 to the length |
| CardBytes.Int2BinUndoesBin2Int | src/gp_util.c:150-165 | for lengths 1 to 8 and both orders, the same bytes |
| GpQueue.ClassFifo | src/gp_queue.c:33-98 | over every run and for each class, commands taken followed by commands waiting are those enqueued, in order and unaltered |
| GpQueue.SecondClassWaits | src/gp_queue.c:76-86 | when a second-class command is next, every first-class command enqueued so far has left |
| GpQueue.TwinsLeaveInOrder | src/ad_target.c:305-316 | over every run, once the bank 1 command of a pair has left, its bank 0 twin has left directly before it among the commands of their class |
| GpQueue.DrainOrder | src/gp_queue.c:76-86 | with nothing added, the first class leaves in order and then the second |
| GpQueue.InCmdsFirst | src/gp_queue.c:50-54 | commands of the first class land behind those waiting, in order, and leave the other list alone |
| GpQueue.CmdQueue.GpInCmd | src/gp_queue.c:33-60 | a copy goes to the tail of its class's list; the other list stays |
| GpQueue.CmdQueue.Unlink | src/gp_queue.c:69-88 | takes the front of the first class, else of the second, else nothing |
| GpQueue.CmdQueue.constructor | src/gp_queue.c:119-125 | two empty lists |
| DbLayer.TokenDb.DbAddToken | src/db_layer.c:120-164 | refuses an address another card owns and then changes nothing; else both maps hold the record |
| DbLayer.TokenDb.DbGetMaxAddr | src/db_layer.c:228-244 | the greatest mapped address cut to 16 bits, at least the slot before the first |
| DbLayer.TokenDb.DbGetNextToken | src/db_layer.c:246-263 | a walk hands out each card's record once, in an order left open |
| DbLayer.AddTokenKeepsIndex | src/db_layer.c:120-164 | an add keeps the two maps in agreement and moves no address; it fails exactly on a conflict |
| DbLayer.AddTokensKeepIndex | src/db_layer.c:120-164 | so does any run of adds |
| DbLayer.NoSharedAddress | src/db_layer.c:120-164 | the current records of two cards other than 0 never share an address |
| DbLayer.OwnerKept | src/db_layer.c:120-164 | over any run of adds a mapped address keeps its owner if and only if that is not card 0 or no other card is added there |
| DbLayer.CardZeroLosesItsAddress | src/db_layer.c:123-128 | a record of card 0 and one of another card can share an address |
| TokenSafety.ReAddNeverConflicts | src/gp_processor.c:99-106 | the poll handler's re-add of a card found in the database is never refused |
| TokenSafety.TokenOkMeaning | src/ad_cmd.c:39-49 | for a device whose byte order is known, the six bytes of a token record read in it as the low 48 bits of the card mapped to its address, or as card 0 where there is a record of that |
| TokenSafety.RecordReadsBack | src/ad_cmd.c:39-49 | both commands of a record give the card's low 48 bits in another byte order if and only if that is the one they were written in or the card's bytes are the same both ways |
| TokenSafety.InfoReplyStrandsRecord | src/gp_processor.c:229-233 | an information reply that turns a device's byte order leaves the records already waiting as they were, so they read right if and only if the card's bytes are the same both ways |
| TokenSafety.CardOneStranded | src/gp_processor.c:229-233 | card 1 at the first slot is then read as another card |
| TokenSafety.AddCidInv | src/ad_cmd.c:27-57 | one write to a device keeps every queued record right, and is refused exactly when another card owns the address |
| TokenSafety.AddCidKeepsRecords | src/ad_cmd.c:27-57 | called on its own, `cmd_add_cid` keeps every record right if and only if the address it chooses is refused or already mapped to a card with the same low 48 bits |
| TokenSafety.AddCidMisplaces | src/ad_cmd.c:27-57 | otherwise a record that names an unmapped address, or carries another card than is mapped there, waits |
| WriteLaws.AddCidReachesDevice | src/ad_cmd.c:27-57 | once its commands are carried out, both banks hold the record with the card's id, attributes and mask in its slot; if the slot is at or past the host's bound, both banks hold at 0x00BE the bound the host's table now has, which is behind the slot, and otherwise that is as before |
| WriteLaws.AddCidOnlyTo | src/ad_cmd.c:46-54 | the commands it queues are for that device alone, each noted under the bank its bytes name |
| WriteLaws.AddedEverywhere | src/ad_cmd.c:90-106 | the card is stored at the address given, or at the global bound if none was, and so written to each active device in range and to no other |
| WriteLaws.TokenAddedEverywhere | src/ad_cmd.c:59-88 | a known card is written where it is stored with the attributes given, and another is stored and written at the global bound |
| WriteLaws.SetUpReaches | src/gp_layer.c:455-467 | a device heard for the first time gets its clock, door times and the global bound in both banks, and is asked for its information, times, bounds and clock |
| WriteLaws.ReloadWithinLoad | src/ad_cmd.c:232-258 | during a reload the device is in load mode at every token record, and out of it at the end |
| TokenSafety.LowBoundMisplaces | src/ad_cmd.c:90-106 | with the global bound below the first slot, an add without an address is tried there in the database and written to the first active device at that device's own bound; if that is unmapped, a misplaced record waits |
| TokenSafety.FrameInInv | src/gp_processor.c:66-129 | so does any frame handled, with the cards it adds |
| Allocator.AddToDevicesWrites | src/ad_cmd.c:99-104 | without a refusal the loop raises exactly the bounds that were not past the address, and the global bound exactly if there was one |
| Allocator.AddReportsSuccess | src/ad_cmd.c:90-106 | `cmd_add_cid_to_all` returns 1 if and only if the database has stored the record or no device is active |
| Allocator.AddTokenReportsSuccess | src/ad_cmd.c:59-88 | `cmd_add_tocken_to_all` returns 1 if and only if no other card owns its address in the database or no device is active |
| Allocator.AddSucceeds | src/ad_cmd.c:90-106 | with the bound behind all mapped addresses an add without an address succeeds at the unmapped bound, which advances by 8 if and only if some active device's bound is not past it and 16 bits suffice |
| Allocator.AdvanceKeepsBehind | src/ad_cmd.c:27-57 | an add that advances keeps the condition for the next |
| Allocator.AddManySlots | src/ad_cmd.c:90-106 | successive adds get successive slots and keep them |
| Allocator.SecondAddStored | src/ad_cmd.c:90-106 | two adds in a row are both stored if and only if the first advances the bound |
| Allocator.SeedIsBehind | src/gp_layer.c:483 | the seed is behind all mapped addresses if and only if the highest leaves room for a slot |
| Allocator.KnownCardKeepsOldAttributes | src/ad_cmd.c:59-88 | the database holds the attributes given if and only if the card was new to it or had them already; for a known card it stays as it was |
| Reload.FirstClassRestores | src/ad_cmd.c:232-258 | once the queued first-class commands have been carried out, both banks hold every card's record at its own address, whatever was there or queued before |
| Reload.LastReloadedWins | src/ad_cmd.c:238-251 | after a reload's commands both banks hold a card's record if all slots of the cards the cursor met after it are apart from its own, however slots overlap otherwise |
| ReloadDrain.ReloadRestores | src/ad_cmd.c:232-258 | after a reload and a full drain of both classes, with aligned addresses and no card 0, a bank holds a card's id at its own address, readable in the device's order, if and only if the last second-class record waiting for that slot, if there is one, is in that order |
| ReloadDrain.SteadyOrderRestores | src/ad_cmd.c:232-258 | so both banks hold every card readable if no waiting record is in another order than the device's |
| ReloadDrain.ReloadIsOverwritten | src/gp_processor.c:229-233 | a record that waited when an information reply turned the device's order is carried out after the reload, and the slot then holds the card if and only if its bytes are the same both ways |
| ReloadDrain.CardOneOverwritten | src/gp_processor.c:229-233 | so card 1 is lost in either bank |
| ReloadDrain.DrainedSlot | src/gp_queue.c:69-98 | then a slot holds the last second-class record that was waiting for it, if there was one, and else the record in the database |
| ReloadDrain.CarriedSlot | src/ad_target.c:402-433 | after any commands in order a slot holds the last record for it, or what it held before |
| ReloadDrain.ReloadedAttributes | src/ad_cmd.c:59-88 | the attributes a device holds after adding a card again, a reload and a full drain are the given ones if and only if the call wrote them to it, or the last record waiting had them, or with none waiting the card was new to the database or had them already |
| Reload.AlignedIsSpaced | src/db_layer.c:120-164 | in an agreeing database addresses that are multiples of 8 give slots that do not overlap |
| Reload.PairCarried | src/ad_target.c:402-433 | the two commands for a token write its eight bytes at its address, one in each bank |
| Reload.SlotReadsBack | src/gp_util.c:150-165 | a stored slot read in the device's order gives the card's low 48 bits |
| RoundRobin.ScanMeans | src/gp_layer.c:163-182 | a scan passes over exactly the devices over the limit, marks those inactive, and stops at the next within it |
| RoundRobin.EachDeviceOnce | src/gp_layer.c:163-209 | between two zero returns each device is visited by exactly one call, and polled if and only if its timeouts are within the limit then |
| RoundRobin.Ascending | src/gp_layer.c:163-209 | devices are polled in ascending order |
| CardPoll.ActionsExactlyWhenDue | src/gp_processor.c:66-129 | over every sequence of readings a card action is taken at a GET_REGS exactly when its event is a card event and the event changed or a GET_CID since the last GET_REGS saw a new card |
| CardPoll.SteadyReadingsSilent | src/gp_processor.c:69-126 | the same event and card never act again |
| CardRuns.ActionsFollowReadings | src/gp_processor.c:66-129 | over every run of the system the actions taken for a device are exactly those due by the readings that reached the poll handler, whatever was lost, refused, corrupted, added or sent in between |
| CardRuns.FrameEffect | src/gp_processor.c:66-127 | a frame changes what is known of cards for its own device only, by its reading, and byte orders by information replies only |
| DoorLaws.DoorsFollowReadings | src/gp_processor.c:76-126 | over every run a delivery opens a door, exactly one, if and only if it brings a reading that is due, with event 2 or 3, for a card the database knows; the door is that of the device and event |
| DoorLaws.OtherSteps | src/gp_processor.c:90-109 | no other step opens a door, save for openings the application queues |
| DoorLaws.IdleReading | src/gp_processor.c:78-124 | a register reading that is not due, or not of a card at a door, queues, sends and stores nothing |
| DoorLaws.KnownCardLetIn | src/gp_processor.c:90-106 | a due reading of a known card queues one door opening and, behind it, that card's records for the same device with its id, attributes and mask; the database stays |
| DoorLaws.RefusedCardMoved | src/gp_processor.c:99-106 | a known card whose address another card owns is moved to the global bound, with its attributes as they were |
| DoorLaws.UnknownCardStored | src/gp_processor.c:107-109 | one of an unknown card opens no door, and stores the card at the global bound with no attributes and a full mask unless another card owns that |
| ReplyLaws.InfoReplyMeans | src/gp_processor.c:229-245 | over the fields of gp_info_t: the byte order is turned if and only if the type the select bit picks is positive, the limits are raised if and only if the model is 12 or more, and nothing else changes |
| ReplyLaws.StraightReader | src/gp_processor.c:220-222 | a model 12 controller of type 0 keeps the straight order |
| ReplyLaws.CardReplyMeans | src/gp_processor.c:69-74 | a card reply of up to eight bytes is read as the card whose base 256 digits they are, big end first exactly for a device of turned order; the card is new if it was already or another was read before |
| ReplyLaws.BoundReplyMeans | src/gp_processor.c:253-261 | a token bound reply puts its two bytes, big end first, into the device's entry, and changes nothing else |
| ReplyLaws.OtherRepliesIgnored | src/gp_processor.c:249-300 | other replies without a handler change nothing |
| ReplyLaws.PointersStored | src/gp_processor.c:134-157 | valid log pointers are put into the device's entry |
| AdTarget.BuffDataBytes | src/ad_target.c:195-216 | the bytes of a block request say log memory, its length and its address |
| AdTarget.SetDownBytes | src/ad_target.c:218-236 | the bytes of a pointer write say its address, at the log pointer `down` |
| Program.Globals.GpInit | src/gp_layer.c:469-487 | a fresh device table, empty queues, nothing outstanding, and the allocator's seed for the highest mapped address |
| Program.Globals.GpSend | src/gp_layer.c:121-161 | the new `send_mess`, the inherited or deleted handler, and the frame in the send buffer |
| Program.Globals.BuildFrame | src/gp_layer.c:142-153 | the send buffer starts with the request frame of that length |
| Program.Globals.GpInCmd | src/gp_queue.c:33-60 | the command waits, nothing else changes |
| Program.Globals.GpPutCmd | src/gp_queue.c:69-98 | the next command, if any, leaves the queue and is sent |
| Program.Globals.GpInPair | src/ad_target.c:420-432 | the bank 0 command and then its bank 1 twin are queued; the later edit does not reach the first |
| Program.Globals.AdSetToken | src/ad_target.c:402-433 | both token commands are queued |
| Program.Globals.AdSetTokenBound | src/ad_target.c:289-318 | both bound commands are queued |
| Program.Globals.CmdAddCid | src/ad_cmd.c:27-57 | the address chosen, the conflict refused, the record queued, both bounds raised |
| Program.Globals.PassBound | src/ad_cmd.c:51-55 | both bounds raised, both bound commands queued |
| Program.Globals.CmdAddCidToAll | src/ad_cmd.c:90-106 | the record stored with an address filled in, then written to each active device until one refuses |
| Program.Globals.CmdAddTockenToAll | src/ad_cmd.c:59-88 | a new card stored at the global bound, a known one kept; then as above |
| Program.Globals.CmdReloadDev | src/ad_cmd.c:232-258 | the prepare command, every card's pair once in the cursor's order, the closing command |
| Program.Globals.QueueTokens | src/ad_cmd.c:235-251 | each card's pair once, in the cursor's order |
| Program.Globals.CbLogRead | src/gp_processor.c:131-201 | the three steps of the drain by target |
| Program.Globals.OnLogPointers | src/gp_processor.c:133-159 | bad pointers refused; else stored and the block asked for, unless none waits |
| Program.Globals.RunEvents | src/gp_processor.c:161-192 | the loop's effect on the device is that of its records in order, and the address ends behind the last |
| Program.Globals.OnLogBlock | src/gp_processor.c:160-195 | the block's records run, then the pointer write behind them, wrapped at 0x8000 |
| Program.Globals.CbGetPollResult | src/gp_processor.c:66-129 | a card reading is noted and followed by GET_REGS; a register reading reports, admits and clears |
| Program.Globals.OnNewCard | src/gp_processor.c:90-109 | a known card opens and is written again, and is given a new address if refused; an unknown one is added everywhere |
| Program.Globals.ProcessPortInput | src/gp_processor.c:203-301 | the installed handler, or the byte order, limits and token bound noted |
| Program.Globals.GpSendIdle | src/gp_layer.c:163-209 | the scan's table and position, and a poll if it stopped at a device |
| Program.Globals.NextToPoll | src/gp_layer.c:167-182 | the scan loop over the device table in place |
| Program.Globals.GpReceivTimer | src/gp_layer.c:256-291 | nothing before the timeout; then the timeout counted and the next command or poll sent |
| Program.Globals.GpReceivRead | src/gp_layer.c:293-415 | globals and receive buffer after a read event, whole frame or not; a read of no bytes, as into a full buffer, resets the device |
| Program.Globals.EmptyRead | src/gp_layer.c:331-337 | the soft reset is sent and the buffer stays open |
| Program.Globals.Collect | src/gp_layer.c:314-349 | the read is gathered in place |
| Program.Globals.DecodeInPlace | src/gp_layer.c:350-357 | the frame is decoded in the buffer and checked |
| Program.Globals.Dispatched | src/gp_layer.c:366-409 | source check, ACK, NACK and data replies, and the next command unless a data reply's handler returned a positive result |
| Program.Globals.NoteRead | src/gp_layer.c:299-310 | the device is alive and, if new, is set up |
| Program.Globals.GpDevInit | src/gp_layer.c:455-467 | the set-up commands are queued |
| Program.Globals.GpGetDevLogs | src/gp_layer.c:417-432 | a pointer request for each active device in range |
| Program.Globals.GpAllDevEnable | src/gp_layer.c:434-448 | all timeout counts but entry 0's are cleared |

## Left out

- Serial port, termios, reconnecting, closing the port, failed reads and writes, libevent,
  clocks: timer and read events are steps, and the port's bytes are parameters. The runs of
  the whole system have no empty reads.
- Berkeley DB itself, its errors and its key order: two finite maps, and a walk in an order
  left open.
- Logging, dumps, BCD dates and `mktime`: an event carries its record's bytes for its date
  fields, and the date `set_rtc_date` sends is a parameter.
- `bin2hex` and `long2hex`, schedules, stored parameters, device exchange, and the commands
  of src/ad_target.c that only read or set a single value.
- Bulk clearing and the resets: they discard records and log pointers on purpose, and none
  of the run results holds across them.
- Device fields nothing modelled reads or writes: `zone_id`, the send and read times.
- `set_timeout`, which the sources leave unused, and the zeroing of the send buffer before a
  frame is built.
- The list nodes of src/gp_queue.c and `malloc`: each list is a sequence held in a field,
  and enqueuing copies the command.
- Application callbacks: the card and event callbacks are the defaults; card actions and
  events are kept as histories. A card action opens the door for a card the database knows
  and reports it otherwise.
- A run joins no two partial answers: when the rest of an answer is lost, its first bytes
  and the next answer arrive as one frame that the checksum is taken to reject.
- Replies shorter than their header.
- Guarantees.StopAndWait: is about devices that never acknowledge a read; for others
  TwoSendsOnlyOnAck says what happens.
- Guarantees.TokensCarryTheirCard: allows card 0 where the database has a record of it,
  because a reload writes such a record even to an address another card has since got
  (`Reload.LastReloadedWins`).
- ReloadDrain.ReloadRestores: is about what waits when the device is reloaded; commands that
  are queued while it drains are not part of it. Waiting records must carry the cards their
  addresses are mapped to, as Guarantees.TokensCarryTheirCard gives.
- Reads.DataReplyDispatched: is about data replies; the length a handler sees with an ACK
  depends on how the frame was split, which matters only for acknowledged reads.
- Program.Globals.RunEvents: reads at most the 120 bytes of `cmd_buff`, and takes a stored
  `bound_down` above 0x8000, which no call leaves, for 0x8000.
- Program.Globals.ProcessPortInput: of the replies without a handler models those that
  change the device table; the others are only printed.
