# A verified model of the push-rod firmware

The firmware drives an electric push-rod on RT-Thread. This project models its cores in
Dafny and proves what they keep over whole runs:

* the flash record store (`param_manager.c`): an append-only log with sequence numbers,
  CRC-32, a scan at boot, retry and wear rotation;
* motor arbitration, rod state machine and system state machine (`dev_act.c`,
  `dev_rod_*.c`, `dev_state.c`, `state_engine.c`) as one protocol of steps;
* the RTT byte ring with all its write paths, terminal framing and the formatter
  (`SEGGER_RTT.c`, `SEGGER_RTT_printf.c`);
* the control-side machines: PWM ramp, current and voltage detectors, ADC caches, stroke
  saving across power cycles.

Each core has two layers. Functions over values say what an operation does, and the
theorems are about them. Where the source changes things in place, a class with the same
loops and branches is tied to those functions by its `ensures` clauses.

## How the pieces fit

| file | contents |
|---|---|
| `Bits.dfy`, `Crc.dfy`, `CrcCode.dfy` | bitwise operators on words, the checksum, its detection property and which code it is |
| `RecordStore.dfy` | flash, records, scan, save and boot as functions |
| `RecordInvariant.dfy`, `RecordSave.dfy` | what one save or boot does to what the scan can find |
| `RecordRuns.dfy`, `RecordSurvival.dfy` | histories: round trip, power cuts, survival, wear |
| `ParamManager.dfy` | the record store in place |
| `Ring.dfy`, `RingRuns.dfy`, `RingOverwrite.dfy` | the ring as a value, target and host interleaved, the dropping writer |
| `RttBuffer.dfy`, `Terminal.dfy` | the ring in place, terminal framing |
| `PrintfText.dfy`, `PrintfMeaning.dfy`, `RttPrintf.dfy` | the text of a format, what each conversion means, the formatter in place |
| `Arbitration.dfy`, `ArbMeaning.dfy`, `ArbAxis.dfy` | arbitration as functions, what each command means, and in place |
| `Rod.dfy`, `SysProtocol.dfy` | rod and system as steps on one state |
| `SysSafety.dfy`, `RodSafety.dfy` | safety of every run |
| `SysRecovery.dfy`, `RodMeaning.dfy` | where faults and recoveries lead, how the rod follows the motor |
| `SysMachine.dfy` | the state machines, dispatcher and rod tick in place |
| `Pwm.dfy`, `Detectors.dfy`, `Adc.dfy`, `Stroke.dfy` | the control-side machines |

## Modelling decisions

* Flash is a sequence of 32-bit words. Erasing sets a sector to ones, programming is a
  bitwise AND, and a write succeeds when the word reads back as written. There are no
  other hardware faults, and a power cut falls between two such operations.
* A record layout has its sequence word at offset 1, as both record structures of the
  firmware have.
* Sent arbitration commands are handled before their sender continues; a rod tick and an
  event dispatch are atomic. Timestamps, ticks and the sampled polarity are inputs.
* Lengths, currents and voltages are reals. Unsigned wrap-around is written out where the
  code relies on it or could meet it.

## Where code and description differ

* After a boot the write position is the live record, so the first save tries to program
  the new sequence number over the old one. The attempt always fails and spoils the live
  record exactly when its number was odd; a cut there can lose the newest record
  (`RecordSurvival.NewestSurvivesIff`, `RecordSurvival.FirstRecordCanBeLost`).
* `SEGGER_RTT_WriteWithOverwriteNoLock` keeps the newest bytes only for data below an exact
  bound (`RingOverwrite.OverwriteExact`).
* `SEGGER_RTT_GetBytesInBuffer` is right exactly when the ring has not wrapped, or its offsets
  are 2^31 apart (`RttBuffer.RttRing.GetBytesInBuffer`).
* `SEGGER_RTT_vprintf` counts its last partial chunk twice, so its result is the number of
  characters exactly when that is a multiple of 64 (`RttPrintf.Vprintf`).
* A fault recorded before start-up is complete, or while halted after a work error, does not
  lead to FAULT unless the same event set takes it back; recorded faults mean FAULT exactly
  as long as that does not happen (`SysSafety.FaultBitsMeanFault`, `SysSafety.FaultNeedsRow`).
* The enter action of RUN is meant to repeat the supply's run command after a fault, but RUN is
  never entered out of FAULT: a recovery passes through IDLE, which empties all queues, and the
  system comes back in RUN with the motor at rest (`SysRecovery.RunNotFromFault`,
  `SysRecovery.ReturnsEmpty`).
* A manual recovery is described as returning to the state before the fault. A rod limit fault
  records no such state, so after one it returns to an older memory
  (`SysRecovery.RodLimitReturn` has the exact condition, `SysRecovery.RodLimitMisleads` a run
  that was in IDLE and ends in RUN).
* With masking off (`block_ms` 0, a documented setting) a start or reversal does not restart
  the over-current window, so the event can come earlier than a whole window after it
  (`CurrentDetector.EarlyAlarmWithoutMask`; the exact condition is
  `CurrentDetector.NoEarlyAlarm`).

## Model

| member | source | states |
|---|---|---|
| Crc.CalcParamCrc | RTT_template1/Utils/param_manager.c:55-75 | the byte and bit loops compute the checksum of the words before the checksum field, or zero for an offset past the record |
| Crc.ByteAndWordFeedsAgree | RTT_template1/Utils/param_manager.c:67-72 | feeding the bytes of a buffer equals feeding its words, each as one exclusive or and 32 bit steps |
| Crc.OneWordDetected | RTT_template1/Utils/param_manager.c:55-75 | two buffers that differ inside one aligned word never share a checksum |
| CrcCode.MachineOperators | RTT_template1/Utils/param_manager.c:70 | the model's exclusive or and conjunction are those of 32-bit machine words |
| CrcCode.ResidueLaw | RTT_template1/Utils/param_manager.c:55-75 | every buffer followed by its own checksum leaves the residue 0xDEBB20E3 of CRC-32/ISO-HDLC |
| CrcCode.BitStepIsTimesX | RTT_template1/Utils/param_manager.c:70 | a bit step is multiplication by x modulo the generator with exponents 32, 26, 23, 22, 16, 12, 11, 10, 8, 7, 5, 4, 2, 1, 0 |
| CrcCode.KnownChecksum | RTT_template1/Utils/param_manager.c:55-75 | the checksum of one zero word is 0x2144DF1C |
| RecordInvariant.ScanSound | RTT_template1/Utils/param_manager.c:198-242 | the scan finds nothing but valid records |
| RecordInvariant.ScanComplete | RTT_template1/Utils/param_manager.c:198-242 | a valid record behind spoilt words and any number of slots is found |
| RecordStore.TieGoesToFirst | RTT_template1/Utils/param_manager.c:221-226 | the block the scan keeps has a larger number than all blocks before it |
| RecordStore.SavesUnlessSevenFail | RTT_template1/Utils/param_manager.c:296-348 | a save fails exactly when seven attempts in a row fail |
| RecordStore.ScanFindsNewest | RTT_template1/Utils/param_manager.c:194-243 | the scan finds a record exactly when some sector holds a valid one, and then one with the largest sequence number |
| RecordInvariant.SpoiltHit | RTT_template1/Utils/param_manager.c:198-243 | changing the sequence word of the live record makes the scan lose that record and no other |
| RecordSave.ClashWrite | RTT_template1/Utils/param_manager.c:130-139 | programming s+1 over s stops at the sequence word, after two operations, with the bitwise AND left behind |
| RecordSave.SaveKeepsLive | RTT_template1/Utils/param_manager.c:280-349 | a save from any state reached by saves and boots succeeds and makes the given payload the one newest record |
| RecordSave.BootKeepsLive | RTT_template1/Utils/param_manager.c:245-257 | a boot loads exactly the record last saved and changes no flash word |
| RecordSave.BootEmpty | RTT_template1/Utils/param_manager.c:258-271 | without a valid record the boot erases the first sector and stores the defaults as record number 1 |
| RecordRuns.RunInvariant | RTT_template1/Utils/param_manager.c:162-349 | every history of saves and reboots keeps the store invariant, with the last saved payload in RAM |
| RecordRuns.RoundTrip | RTT_template1/Utils/param_manager.c:194-344 | after any history of saves and reboots a boot loads exactly the record of the last save, through failed overwrites, in-place erases and rotations |
| RecordRuns.SavesSucceed | RTT_template1/Utils/param_manager.c:296-348 | every save of every history reports success |
| RecordRuns.PowerCut | RTT_template1/Utils/param_manager.c:194-344 | cut a save of any history after any flash operation: the next boot loads the record being saved, or one completed before, or the defaults |
| RecordSurvival.NewestSurvivesIff | RTT_template1/Utils/param_manager.c:253-344 | the newest record survives every cut of a save exactly when the write position is past it or its number is even, and the save does not erase its sector |
| RecordSurvival.FirstRecordCanBeLost | RTT_template1/Utils/param_manager.c:253-343 | restart once after the first power-up, save, and cut after two operations: the record is gone |
| RecordSurvival.WearLevelled | RTT_template1/Utils/param_manager.c:258-319 | in every history the erase counts of two sectors differ by at most MAX_ERASE_LIFE |
| ParamManager.ParamStore.EraseSector | RTT_template1/Utils/param_manager.c:94-104 | the sector becomes all ones, nothing else changes |
| ParamManager.ParamStore.WriteWord | RTT_template1/Utils/param_manager.c:118-128 | bits are cleared; success means the word reads back as written |
| ParamManager.ParamStore.WriteBuffer | RTT_template1/Utils/param_manager.c:130-139 | words are programmed in order up to the first failure |
| ParamManager.ParamStore.VerifyBuffer | RTT_template1/Utils/param_manager.c:141-150 | true exactly when the slot equals the buffer |
| ParamManager.ParamStore.PrepareSlot | RTT_template1/Utils/param_manager.c:297-319 | a full sector is erased in place, or the next one when this one is worn out |
| ParamManager.ParamStore.StampBuffer | RTT_template1/Utils/param_manager.c:322-325 | next sequence number and fresh checksum, payload untouched |
| ParamManager.ParamStore.TryOnce | RTT_template1/Utils/param_manager.c:322-343 | one attempt: stamped, written, verified, position moved on either way |
| ParamManager.ParamStore.SaveRecord | RTT_template1/Utils/param_manager.c:280-349 | the retry loop equals the save function; result code by its outcome |
| ParamManager.ParamStore.CheckBlock | RTT_template1/Utils/param_manager.c:202-218 | true exactly for a block with both magic words and a matching checksum |
| ParamManager.ParamStore.KeepBetter | RTT_template1/Utils/param_manager.c:221-226 | the larger sequence number wins, the earlier block on a tie |
| ParamManager.ParamStore.ScanOneSector | RTT_template1/Utils/param_manager.c:195-242 | folding the hits of one sector into the best block so far |
| ParamManager.ParamStore.FindNewest | RTT_template1/Utils/param_manager.c:194-243 | the block the boot scan selects |
| ParamManager.ParamStore.StartOver | RTT_template1/Utils/param_manager.c:258-271 | defaults written to a freshly erased first sector |
| ParamManager.ParamStore.InitStore | RTT_template1/Utils/param_manager.c:162-275 | the boot function, or the parameter error for a bad record size; tells whether the defaults were taken |
| Ring.PutAppends | RTT_template1/RTT/SEGGER_RTT.c:442-495 | storing and publishing appends exactly the data to what the host can read |
| Ring.TakeDrops | RTT_template1/RTT/SEGGER_RTT.c:579-652 | a host read removes exactly the oldest bytes |
| RingRuns.StepKeeps | RTT_template1/RTT/SEGGER_RTT.c:380-548 | every interleaved step of target and host keeps the ring invariant; target steps only add to what is readable |
| RingRuns.Fifo | RTT_template1/RTT/SEGGER_RTT.c:380-652 | under every interleaving, down to single copied bytes, bytes read, bytes in the ring and bytes pending equal the posted bytes in order |
| RingRuns.UnreadNeverOverwritten | RTT_template1/RTT/SEGGER_RTT.c:380-548 | no step changes a buffer position the host has not read |
| RingRuns.SkipAllOrNothing | RTT_template1/RTT/SEGGER_RTT.c:1120-1132 | a skip write takes all of its data or none, by the space at its sample |
| RingRuns.TrimTakesWhatFits | RTT_template1/RTT/SEGGER_RTT.c:1134-1142 | a trimming write takes as much as fits at its sample, and no less |
| RingRuns.BlockingRoundProgresses | RTT_template1/RTT/SEGGER_RTT.c:392-419 | a round of a blocking write stores something whenever there is room |
| RingOverwrite.OverwriteExact | RTT_template1/RTT/SEGGER_RTT.c:839-910 | the dropping writer leaves the last size-1 bytes for all data of n bytes exactly when n < 2*size-1-WrOff |
| RttBuffer.RttRing.GetAvailWriteSpace | RTT_template1/RTT/SEGGER_RTT.c:532-548 | the free space of the ring |
| RttBuffer.RttRing.WriteNoCheck | RTT_template1/RTT/SEGGER_RTT.c:442-495 | data that fits is appended, in one piece or around the end |
| RttBuffer.RttRing.BlockRound | RTT_template1/RTT/SEGGER_RTT.c:392-419 | one round stores what fits before the end of the buffer, at least a byte when there is room |
| RttBuffer.RttRing.WriteBlocking | RTT_template1/RTT/SEGGER_RTT.c:380-422 | the whole data reaches the stream in order, however the host reads in between |
| RttBuffer.RttRing.WriteNoWait | RTT_template1/RTT/SEGGER_RTT.c:1119-1150 | skip stores all or nothing, trim what fits, unknown flags nothing |
| RttBuffer.RttRing.WriteNoLock | RTT_template1/RTT/SEGGER_RTT.c:1106-1155 | the stream gains exactly the reported prefix of the data |
| RttBuffer.RttRing.WriteSkipNoLock | RTT_template1/RTT/SEGGER_RTT.c:940-1000 | leaves exactly the state a skip-mode WriteNoLock leaves, for every ring and data |
| RttBuffer.RttRing.PutCharSkipNoLock | RTT_template1/RTT/SEGGER_RTT.c:1271-1301 | the same for a single byte |
| RttBuffer.RttRing.WriteWithOverwriteNoLock | RTT_template1/RTT/SEGGER_RTT.c:839-910 | read offset moved on, then copy rounds: the state of the overwrite function |
| RttBuffer.RttRing.AdvanceRead | RTT_template1/RTT/SEGGER_RTT.c:860-863 | the read offset reduced into the buffer by repeated subtraction |
| RttBuffer.RttRing.CopyRounds | RTT_template1/RTT/SEGGER_RTT.c:868-909 | buffer and write offset after the copy rounds |
| RttBuffer.RttRing.CopyOut | RTT_template1/RTT/SEGGER_RTT.c:591-643 | the oldest unread bytes, with the wrapping count cut to the room left |
| RttBuffer.RttRing.ReadNoLock | RTT_template1/RTT/SEGGER_RTT.c:671-741 | reads exactly the oldest unread bytes that fit and leaves the rest |
| RttBuffer.RttRing.GetBytesInBuffer | RTT_template1/RTT/SEGGER_RTT.c:2085-2103 | the result is the number of unread bytes exactly when the ring has not wrapped, or the offsets are 2^31 apart |
| Terminal.StreamDecodes | RTT_template1/RTT/SEGGER_RTT.c:1927-2049 | after any calls the host's decoder ends outside any switch pair, on the active terminal, with each call's text on its own terminal |
| Terminal.PrefixDecodes | RTT_template1/RTT/SEGGER_RTT.c:1927-2049 | a host that has read part of the stream shows a prefix of that output |
| Terminal.OutIsFrame | RTT_template1/RTT/SEGGER_RTT.c:2001-2040 | TerminalOut adds nothing or one complete frame, trimmed to the free space in trim mode only |
| Terminal.OutShown | RTT_template1/RTT/SEGGER_RTT.c:1976-2049 | the host shows exactly the part of the text that mode and space let through, on its own terminal; the result counts it |
| Terminal.SetShown | RTT_template1/RTT/SEGGER_RTT.c:1927-1957 | selecting a terminal succeeds exactly when it exists and the pair goes through, and then the host shows it |
| Terminal.WriteShown | RTT_template1/RTT/SEGGER_RTT.c:1106-1155 | how much of a plain write is shown, by mode |
| Terminal.TerminalChannel.PostTerminalSwitch | RTT_template1/RTT/SEGGER_RTT.c:510-516 | the complete switch pair reaches the stream |
| Terminal.TerminalChannel.SetTerminal | RTT_template1/RTT/SEGGER_RTT.c:1927-1957 | switch pair and active terminal change together, or neither and the result is -1 |
| Terminal.TerminalChannel.PostFrame | RTT_template1/RTT/SEGGER_RTT.c:2010-2012 | switch, text and switch back as one frame |
| Terminal.TerminalChannel.TerminalOut | RTT_template1/RTT/SEGGER_RTT.c:1976-2049 | stream and result by mode and free space; the active terminal stays |
| PrintfText.BodyReadsBack | RTT_template1/RTT/SEGGER_RTT_printf.c:183-205 | printed digits parse back to the value, whatever the precision |
| PrintfText.FieldWidth | RTT_template1/RTT/SEGGER_RTT_printf.c:150-176 | the field is as wide as requested, or as the number needs if that is more |
| PrintfText.NumberReadsBack | RTT_template1/RTT/SEGGER_RTT_printf.c:227-297 | blanks, sign, then digits that read back as the magnitude |
| PrintfText.ZeroPaddedReadsBack | RTT_template1/RTT/SEGGER_RTT_printf.c:278-293 | with zero padding the sign comes first and the rest reads back as the magnitude |
| PrintfMeaning.SpecReads | RTT_template1/RTT/SEGGER_RTT_printf.c:347-399 | written flags, width, precision and length letters are read as what they say |
| PrintfMeaning.LiteralText | RTT_template1/RTT/SEGGER_RTT_printf.c:340-446 | characters other than % stand for themselves |
| PrintfMeaning.ConversionText | RTT_template1/RTT/SEGGER_RTT_printf.c:340-446 | a conversion anywhere in a format prints its text and takes one argument, none for %% |
| PrintfMeaning.UnsignedLetters | RTT_template1/RTT/SEGGER_RTT_printf.c:415-423 | %x and %X read back in base 16, %u in base 10, as the argument modulo 2^32, with blanks and zeros as flags, width and precision say |
| PrintfMeaning.SignedLetter | RTT_template1/RTT/SEGGER_RTT_printf.c:411-414 | %d reads back as sign and magnitude in base 10, in its field |
| PrintfMeaning.PointerLetter | RTT_template1/RTT/SEGGER_RTT_printf.c:437-440 | %p is eight base-16 digits of the argument modulo 2^32 |
| PrintfMeaning.OtherLetters | RTT_template1/RTT/SEGGER_RTT_printf.c:404-443 | %c is the byte, %s the string, %% one percent sign |
| PrintfMeaning.PlainNumber | RTT_template1/RTT/SEGGER_RTT_printf.c:411-423 | the bare number conversions print sign and digits with no needless zero |
| RttPrintf.FitsExactly | RTT_template1/RTT/SEGGER_RTT_printf.c:183-193 | the digit divisor fits 32 bits exactly up to precision 10 decimal or 8 hexadecimal |
| RttPrintf.IntTextParts | RTT_template1/RTT/SEGGER_RTT_printf.c:244-293 | blanks, sign, zeros and number in printing order make up the specified field |
| RttPrintf.Printer.StoreChar | RTT_template1/RTT/SEGGER_RTT_printf.c:112-131 | the character is staged; full chunks reach the stream or printing fails |
| RttPrintf.Printer.FlushChunk | RTT_template1/RTT/SEGGER_RTT_printf.c:124-130 | a full chunk is written, or refused and the result set to -1 |
| RttPrintf.Printer.WriteStaged | RTT_template1/RTT/SEGGER_RTT_printf.c:453-459 | the stream gains the accepted prefix of the staged bytes; refusals only for lack of space |
| RttPrintf.Printer.Pad | RTT_template1/RTT/SEGGER_RTT_printf.c:168-174 | one pad character for each column the number does not fill |
| RttPrintf.Printer.CountDigits | RTT_template1/RTT/SEGGER_RTT_printf.c:145-157 | the number of digits, or the precision if that is more |
| RttPrintf.Printer.FirstDigit | RTT_template1/RTT/SEGGER_RTT_printf.c:183-193 | the power of the base that extracts the first digit, without overflow |
| RttPrintf.Printer.StoreDigits | RTT_template1/RTT/SEGGER_RTT_printf.c:197-205 | the digits of the value, most significant first |
| RttPrintf.Printer.PrintUnsigned | RTT_template1/RTT/SEGGER_RTT_printf.c:137-221 | the specified unsigned field, or a prefix of it when a chunk is refused |
| RttPrintf.Printer.PrintInt | RTT_template1/RTT/SEGGER_RTT_printf.c:227-297 | the specified signed field, or a prefix of it |
| RttPrintf.Printer.StoreString | RTT_template1/RTT/SEGGER_RTT_printf.c:424-436 | the string, or a prefix of it |
| RttPrintf.Printer.Convert | RTT_template1/RTT/SEGGER_RTT_printf.c:403-446 | the text of one conversion |
| RttPrintf.Printer.PrintAll | RTT_template1/RTT/SEGGER_RTT_printf.c:337-451 | the text of the whole format, or a prefix of it |
| RttPrintf.ReadFlags | RTT_template1/RTT/SEGGER_RTT_printf.c:347-358 | the flags and where they end |
| RttPrintf.ReadNumber | RTT_template1/RTT/SEGGER_RTT_printf.c:362-370 | the decimal number, in unsigned arithmetic, and where it ends |
| RttPrintf.ReadSpec | RTT_template1/RTT/SEGGER_RTT_printf.c:347-399 | flags, width, precision and the position of the conversion letter |
| RttPrintf.Vprintf | RTT_template1/RTT/SEGGER_RTT_printf.c:322-463 | the stream gains the text of the format, however the host reads between chunks: all of it in blocking mode or when it fits at the start, in skip mode a prefix cut at a 64-byte chunk; exact result value |
| RttPrintf.Finish | RTT_template1/RTT/SEGGER_RTT_printf.c:453-462 | the staged rest is written and counted a second time |
| Arbitration.RemoveKeeps | RTT_template1/Dev/dev_act/dev_act.c:349-369 | removing a device keeps order and touches no other device |
| Arbitration.InsertKeeps | RTT_template1/Dev/dev_act/dev_act.c:391-408 | inserting keeps priority order, first come first served |
| Arbitration.ProcessKeeps | RTT_template1/Dev/dev_act/dev_act.c:258-441 | every message keeps the queue invariant |
| Arbitration.ProcessDated | RTT_template1/Dev/dev_act/dev_act.c:258-441 | no decision about a queue depends on a timestamp |
| Arbitration.QueuesOk | RTT_template1/Dev/dev_act/dev_act.c:258-441 | after any messages: at most 10 records, unique devices, allow queues by priority and strictly by number of arrival, made of messages that arrived, never POWER_POS allowed forward together with POWER_NEG in reverse |
| Arbitration.DecisionRefines | RTT_template1/Dev/dev_act/dev_act.c:443-509 | a decision drives a direction exactly when enabled and a record there beats all other allowed records of its direction and strictly by priority all of the opposite one, unblocked, and no single source claims both |
| Arbitration.EveryDecisionRefines | RTT_template1/Dev/dev_act/dev_act.c:244-509 | that holds for the decision after the last message of every sequence of messages, with real order of arrival |
| ArbMeaning.MessageMeaning | RTT_template1/Dev/dev_act/dev_act.c:258-441 | by membership, what each command puts into, withdraws from and leaves in an allow queue |
| ArbMeaning.RefusedLeaves | RTT_template1/Dev/dev_act/dev_act.c:379-389 | a refused run command leaves the queue as it was |
| ArbMeaning.BlockMeaning | RTT_template1/Dev/dev_act/dev_act.c:258-332 | by device, what each command does to a block queue |
| ArbMeaning.AllowedIff | RTT_template1/Dev/dev_act/dev_act.c:258-441 | after any messages a device is allowed in a direction exactly when one of its run commands was accepted and nothing withdrew it later |
| ArbMeaning.BlockedIff | RTT_template1/Dev/dev_act/dev_act.c:258-441 | after any messages a device blocks a direction exactly when it asked to and has not lifted it since |
| ArbMeaning.RunDrives | RTT_template1/Dev/dev_act/dev_act.c:244-500 | an accepted run command that beats all other records drives the motor its way with its duty |
| ArbMeaning.FirstCommandDrives | RTT_template1/Dev/dev_act/dev_act.c:265-274 | with nothing queued every run command does |
| ArbMeaning.ConflictMeans | RTT_template1/Dev/dev_act/dev_act.c:457-499 | when a decision reports a conflict, and that it is counted |
| ArbAxis.CommandQueue.ShiftDown | RTT_template1/Dev/dev_act/dev_act.c:356-365 | the gap is closed, all other records keep their order |
| ArbAxis.CommandQueue.RemoveDevice | RTT_template1/Dev/dev_act/dev_act.c:349-369 | the first record of the device is gone, nothing else |
| ArbAxis.CommandQueue.PutAt | RTT_template1/Dev/dev_act/dev_act.c:399-408 | the record is stored at its place, later ones move up |
| ArbAxis.CommandQueue.AllowCommand | RTT_template1/Dev/dev_act/dev_act.c:371-409 | refused while blocked; else replaces the device's record, bounded, in priority order |
| ArbAxis.CommandQueue.BlockCommand | RTT_template1/Dev/dev_act/dev_act.c:411-435 | at most one block record per device, bounded |
| ArbAxis.CommandQueue.ClearAll | RTT_template1/Dev/dev_act/dev_act.c:437-441 | the queue is empty |
| ArbAxis.Axis.Init | RTT_template1/Dev/dev_act/dev_act.c:63-87 | all queues empty, enabled and stopped |
| ArbAxis.Axis.RemoveOppositePowerAllow | RTT_template1/Dev/dev_act/dev_act.c:334-347 | a run command of one supply polarity drops the other's |
| ArbAxis.Axis.ProcessMessage | RTT_template1/Dev/dev_act/dev_act.c:258-332 | the queues after a message, by command type |
| ArbAxis.Axis.SelectCommand | RTT_template1/Dev/dev_act/dev_act.c:457-479 | the record to execute, or a conflict |
| ArbAxis.Axis.Execute | RTT_template1/Dev/dev_act/dev_act.c:481-499 | fields and motor output of the choice |
| ArbAxis.Axis.ApplyStop | RTT_template1/Dev/dev_act/dev_act.c:502-509 | stopped fields and a stop output |
| ArbAxis.Axis.Decision | RTT_template1/Dev/dev_act/dev_act.c:443-500 | the decision function; a stop whenever disabled |
| ArbAxis.Axis.HandleMessage | RTT_template1/Dev/dev_act/dev_act.c:244-254 | one message: queues, then decision |
| SysSafety.NeverLeftInEmergency | RTT_template1/Utils/state_engine.c:21-70 | no outermost event ends in EMERGENCY, for every state and event |
| SysSafety.FaultLockOut | RTT_template1/Dev/dev_mgr/dev_state.c:438-478 | in every run, from entering FAULT to the next entry of IDLE every decision on every axis is a stop |
| SysSafety.EnabledOutsideFault | RTT_template1/Dev/dev_mgr/dev_state.c:398-478 | in every state of every run both axes are enabled, except in FAULT |
| SysSafety.IdleForgets | RTT_template1/Dev/dev_act/dev_act.c:63-87 | a step that enters IDLE ends with all queues of both axes empty |
| SysSafety.AnsweredExactly | RTT_template1/Dev/dev_mgr/dev_state.c:100-242 | for every set of events a dispatch keeps "a recorded fault means FAULT" exactly when the system is neither starting up nor halted, or the set itself takes its faults back |
| SysSafety.TakenBackExactly | RTT_template1/Dev/dev_mgr/dev_state.c:100-242 | which event sets leave no fault recorded, from a state without recorded faults |
| SysSafety.FaultBitsMeanFault | RTT_template1/Dev/dev_mgr/dev_state.c:100-242 | in every run a recorded fault meant FAULT at every step so far exactly when every dispatch so far was such |
| SysSafety.QuietWhileDeaf | RTT_template1/Dev/dev_mgr/dev_state.c:100-242 | so in every run in which no fault event is dispatched while starting up or halted |
| SysSafety.FaultNeedsRow | RTT_template1/Dev/dev_mgr/dev_state.c:50-78 | a single recorded fault of any of the four kinds leads to FAULT exactly when the system is neither starting up nor halted |
| SysSafety.OverCurrentCleared | RTT_template1/Dev/dev_mgr/dev_state.c:173-238 | the over-current bit is cleared only by recovery, manual recovery, or a polarity change reading another direction than the latched one |
| SysRecovery.FaultDispatch | RTT_template1/Dev/dev_mgr/dev_state.c:104-201 | a dispatch of any set with a fault, from IDLE or RUN: the interrupted state is remembered unless a rod limit fault comes first; how it ends if the set clears the fault again |
| SysRecovery.EpisodeDispatch | RTT_template1/Dev/dev_mgr/dev_state.c:173-241 | a dispatch of any set in FAULT: FAULT and memory stay while a fault is recorded, otherwise the state it ends in |
| SysRecovery.ReturnsToWork | RTT_template1/Dev/dev_mgr/dev_state.c:173-238 | in every run the system returns from its faults to the state the first of them interrupted |
| SysRecovery.ReturnsEmpty | RTT_template1/Dev/dev_act/dev_act.c:63-87 | in every run it leaves FAULT with every queue empty |
| SysRecovery.RunNotFromFault | RTT_template1/Dev/dev_mgr/dev_state.c:415-420 | RUN is never entered out of FAULT |
| SysRecovery.OverVoltageReturns | RTT_template1/Dev/dev_mgr/dev_state.c:149-197 | an over-voltage and its end: from RUN back to RUN, from IDLE back to IDLE |
| SysRecovery.ManualRecovery | RTT_template1/Dev/dev_mgr/dev_state.c:251-260 | a manual recovery ends where the memory says |
| SysRecovery.RodLimitReturn | RTT_template1/Dev/dev_mgr/dev_state.c:140-145 | after a rod limit fault it returns to the interrupted state exactly when an older memory agrees |
| SysRecovery.RodLimitMisleads | RTT_template1/Dev/dev_mgr/dev_state.c:140-145 | a run in which it does not |
| SysRecovery.StateAfter | RTT_template1/Dev/dev_mgr/dev_state.c:50-78 | the state every outermost event ends in |
| SysRecovery.FaultEmpties | RTT_template1/Dev/dev_mgr/dev_state.c:438-478 | whatever leads to FAULT leaves both axes disabled, stopped and without commands |
| SysRecovery.ErrorNamesFault | RTT_template1/Dev/dev_mgr/dev_state.c:104-172 | a single fault sets its own bit and names itself in the error code |
| SysRecovery.ErrorCleared | RTT_template1/Dev/dev_mgr/dev_state.c:180-191 | the return of a normal voltage clears the code with the last bit |
| RodMeaning.FollowsDirection | RTT_template1/Dev/dev_rod/dev_rod_state.c:86-114 | the rod state after a tick, in full: extending exactly while driven forward, retracting while driven in reverse, stopped while not driven, limits and time-outs apart |
| RodMeaning.RequestReaches | RTT_template1/Dev/dev_rod/dev_rod_state.c:86-114 | a limit request puts the rod at that limit unless it moves the other way or has failed |
| RodMeaning.TimesOut | RTT_template1/Dev/dev_rod/dev_rod_state.c:86-133 | in every run a movement fails exactly at a tick that comes the time limit after the tick it began with |
| RodMeaning.PositionIsSum | RTT_template1/Dev/dev_rod/dev_rod_position.c:34-39 | between limits the position is the start plus all pulses counted, without clamping |
| RodMeaning.StallForward | RTT_template1/Dev/dev_rod/dev_rod_calib.c:13-64 | an over-current driving forward near the end is no fault: the forward queue is cleared and the next tick is at the extended limit, calibrated |
| RodMeaning.StallReverse | RTT_template1/Dev/dev_rod/dev_rod_calib.c:13-64 | the same at the retracted end |
| RodMeaning.Obstructed | RTT_template1/Dev/dev_rod/dev_rod_calib.c:13-64 | anywhere else it is a fault, recorded with its direction |
| RodMeaning.IdleCurrentIgnored | RTT_template1/Dev/dev_rod/dev_rod_calib.c:13-64 | without a driven direction it means nothing |
| RodSafety.LimitInterlock | RTT_template1/Dev/dev_rod/dev_rod_state.c:116-199 | after every rod tick of every run the rod's block of a direction is in place exactly when the rod is at that limit |
| RodSafety.NothingSurvivesTheStay | RTT_template1/Dev/dev_rod/dev_rod_state.c:147-199 | from the tick that reaches a limit to the step that leaves it, without IDLE, nothing drives further that way and no earlier allow survives |
| RodSafety.PositionStop | RTT_template1/Dev/dev_rod/dev_rod_state.c:86-114 | a rod found beyond its stop is put at the extended limit, blocked, with the forward queue cleared |
| SysMachine.SysTable | RTT_template1/Dev/dev_mgr/dev_state.c:50-78 | the rows of the table are exactly the transitions |
| SysMachine.RodTable | RTT_template1/Dev/dev_rod/dev_rod_state.c:14-52 | the rows of the rod table are exactly its transitions |
| SysMachine.FindTarget | RTT_template1/Utils/state_engine.c:24-36 | the search finds the transition's target, or the state itself |
| SysMachine.FindRodTarget | RTT_template1/Utils/state_engine.c:24-36 | the same search on the rod table |
| SysMachine.System.SendCommand | RTT_template1/Dev/dev_act/dev_act.c:223-256 | the message is handled by its axis and the decision noted |
| SysMachine.System.SetArbEnable | RTT_template1/Dev/dev_act/dev_act.c:170-188 | only the enable switch of the axis changes |
| SysMachine.System.ResyncActFromFault | RTT_template1/Dev/dev_mgr/dev_state.c:351-391 | both axes enabled, then the command of the supply direction |
| SysMachine.System.EnterFault | RTT_template1/Dev/dev_mgr/dev_state.c:438-456 | each axis disabled, then stopped |
| SysMachine.System.EnterEmergency | RTT_template1/Dev/dev_mgr/dev_state.c:457-478 | both axes stopped, then FAULT entered from inside |
| SysMachine.System.SendEvent | RTT_template1/Utils/state_engine.c:21-70 | look-up, switch and enter action, re-entrant and terminating |
| SysMachine.System.JudgeOverCurrent | RTT_template1/Dev/dev_rod/dev_rod_calib.c:13-64 | what an over-current means, and the calibration request a limit leaves |
| SysMachine.System.OverCurrentEvent | RTT_template1/Dev/dev_mgr/dev_state.c:104-139 | ignored, taken as a limit, or recorded as a fault with its direction |
| SysMachine.System.RecoverWhenClear | RTT_template1/Dev/dev_mgr/dev_state.c:182-201 | with no fault left: recovery, and RUN again if that was interrupted |
| SysMachine.System.HandleEvent | RTT_template1/Dev/dev_mgr/dev_state.c:104-241 | the handling of one pending event |
| SysMachine.System.DispatchEvents | RTT_template1/Dev/dev_mgr/dev_state.c:100-242 | a set of pending events handled in the fixed order |
| SysMachine.System.ActuatorTick | RTT_template1/Task/rod_task.c:20-61 | position, calibration, direction, then state machine and commands |
| SysMachine.System.RodUpdate | RTT_template1/Dev/dev_rod/dev_rod_state.c:116-205 | rod context and the arbitration commands of the tick |
| Pwm.RampStep | RTT_template1/Dev/dev_pwm/dev_pwm.c:68-79 | the distance to the target shrinks by the step or to zero, and the duty stays on its side |
| Pwm.RampInvariant | RTT_template1/Dev/dev_pwm/dev_pwm.c:91-165 | over every command sequence U+V = 100, duties in [2, 98], every polarity write at 50/50 |
| Pwm.RampStepBounded | RTT_template1/Dev/dev_pwm/dev_pwm.c:135-141 | a tick moves a duty by at most 2 running, 10 stopping |
| Pwm.RampReaches | RTT_template1/Dev/dev_pwm/dev_pwm.c:91-165 | a constant command is at its target after n ticks exactly when n steps cover the distance |
| Pwm.CommandSettles | RTT_template1/Dev/dev_pwm/dev_pwm.c:91-165 | within 48 ticks every command is settled: the duty on V for forward, on U for reverse, zero meaning 20, 50/50 braked for a stop |
| Pwm.EStopHolds | RTT_template1/Dev/dev_pwm/dev_pwm.c:237-255 | after an emergency stop ticks change nothing |
| Pwm.PwmMotor.RampTick | RTT_template1/Dev/dev_pwm/dev_pwm.c:91-165 | the tick function |
| Pwm.PwmMotor.RampOn | RTT_template1/Dev/dev_pwm/dev_pwm.c:135-164 | step, write, settle the mode |
| Pwm.PwmMotor.ApplyDuties | RTT_template1/Dev/dev_pwm/dev_pwm.c:82-88 | registers written where they differ |
| Pwm.PwmMotor.EmergencyStop | RTT_template1/Dev/dev_pwm/dev_pwm.c:237-255 | 50/50 with braking polarity at once, command withdrawn |
| CurrentDetector.NotBeforeEarliest | RTT_template1/Dev/dev_power/dev_cur_sensor.c:44-101 | from any state, whatever is measured and written to the pins, no over-current event before its earliest millisecond |
| CurrentDetector.AlarmIsDue | RTT_template1/Dev/dev_power/dev_cur_sensor.c:44-89 | a stalled motor raises the event in exactly that millisecond, and only then |
| CurrentDetector.NoEarlyAlarm | RTT_template1/Dev/dev_gpio_motor/dev_gpio_motor.c:23-57 | no event in the first block_ms+max(1,window_ms)-1 ms after motion starts or reverses, exactly when masking is on, an earlier mask still runs, no window is under way, the alarm is latched, or the window is at most 1 ms |
| CurrentDetector.EarlyAlarmWithoutMask | RTT_template1/Dev/dev_gpio_motor/dev_gpio_motor.c:51-53 | with masking off a reversal two milliseconds into a window of three alarms after one |
| CurrentDetector.LowSampleReleases | RTT_template1/Dev/dev_power/dev_cur_sensor.c:71-88 | one sample not above the threshold ends alarm and window; a stall after it is reported again after a whole window |
| CurrentDetector.AlarmNeedsWindow | RTT_template1/Dev/dev_power/dev_cur_sensor.c:71-88 | in every run an event follows max(1,window_ms) consecutive samples above the threshold |
| CurrentDetector.PinsMeanDirection | RTT_template1/Dev/dev_gpio_motor/dev_gpio_motor.c:28-46 | exactly one active pin is a direction; inverting exchanges the two |
| CurrentDetector.SameDirectionNeverRearms | RTT_template1/Dev/dev_gpio_motor/dev_gpio_motor.c:23-57 | only a start or a reversal arms the mask |
| CurrentDetector.CurrentSensor.Isr1ms | RTT_template1/Dev/dev_power/dev_cur_sensor.c:44-89 | the interrupt function and its event |
| CurrentDetector.CurrentSensor.WritePair | RTT_template1/Dev/dev_gpio_motor/dev_gpio_motor.c:23-57 | the driven direction and the mask |
| VoltageDetector.EventsAlternate | RTT_template1/Dev/dev_power/dev_bus_voltage.c:41-104 | fault and recovery events alternate, starting with a fault |
| VoltageDetector.EventsExactly | RTT_template1/Dev/dev_power/dev_bus_voltage.c:62-103 | what every sample adds to the events, fault limits and recovery in full |
| VoltageDetector.PendingFault | RTT_template1/Dev/dev_power/dev_bus_voltage.c:83-92 | over and under voltage belong to the upper and the lower limit, the upper one first |
| VoltageDetector.CounterIsStreak | RTT_template1/Dev/dev_power/dev_bus_voltage.c:62-81 | waiting flag and counter are the streak of recovered samples |
| VoltageDetector.NormalExactly | RTT_template1/Dev/dev_power/dev_bus_voltage.c:62-103 | recovery is reported exactly after 1+max(1,recover_ms) consecutive recovered samples |
| VoltageDetector.NormalNeedsRecovery | RTT_template1/Dev/dev_power/dev_bus_voltage.c:62-103 | those samples directly precede the event and belong to the same fault |
| VoltageDetector.BusVoltage.Isr1ms | RTT_template1/Dev/dev_power/dev_bus_voltage.c:41-104 | the interrupt function and the events it sends |
| Adc.RawRecovered | RTT_template1/Adp/hc32_drv_adc.c:104-107 | less the offset, the converted value is raw of 4096 of reference times gain |
| Adc.CachesAgree | RTT_template1/Adp/hc32_drv_adc.c:96-126 | after any number of samples ring, window and running sum are those of the newest samples |
| Adc.WindowSum | RTT_template1/Adp/hc32_drv_adc.c:113-126 | the running sum is the sum of the last min(n, 20) raw samples |
| Adc.AdcChannel.OnSample | RTT_template1/Adp/hc32_drv_adc.c:96-126 | one more sample in the history the caches stand for |
| Adc.AdcChannel.GetMean | RTT_template1/Adp/hc32_drv_adc.c:212-223 | the converted floor average of the last min(n, 20) raw samples, zero without samples |
| Adc.AdcChannel.ReadRing | RTT_template1/Adp/hc32_drv_adc.c:225-236 | the newest min(n, 256, max) converted samples, newest first |
| Stroke.OnlyLimitsCalibrate | RTT_template1/Dev/dev_rod/dev_rod_position.c:32-89 | a position tick calibrates exactly when it takes a limit request the windows allow, and then the position is that limit |
| Stroke.CalibratedOnlyByLimit | RTT_template1/Dev/dev_param/dev_param_rod.c:129-225 | in every run the position counts as calibrated only after the position module took a limit, which put it at zero or full stroke, in this or an earlier power cycle |
| Stroke.RestoredWasCalibrated | RTT_template1/Dev/dev_param/dev_param_rod.c:166-187 | a restored position was once the calibrated position, as the record holds it |
| Stroke.SavedIsRestored | RTT_template1/Dev/dev_param/dev_param_rod.c:198-247 | what a completed save wrote is what the next start restores |
| Stroke.RequestedIsSaved | RTT_template1/Dev/dev_param/dev_param_rod.c:189-225 | a request is carried out at the second poll after it, not before; an uncalibrated position is not written |
| Stroke.StrokeBlock.InitAndApply | RTT_template1/Dev/dev_param/dev_param_rod.c:105-187 | load, and restore unless the record is the default fill |
| Stroke.StrokeBlock.SaveRequest | RTT_template1/Dev/dev_param/dev_param_rod.c:189-196 | a request is remembered once |
| Stroke.StrokeBlock.PollSave | RTT_template1/Dev/dev_param/dev_param_rod.c:198-225 | after two polls a calibrated position is saved, an uncalibrated one is not |
| Stroke.StrokeBlock.RodSave | RTT_template1/Dev/dev_param/dev_param_rod.c:227-247 | the position is written into the record and saved |

## Left out

- RttBuffer.RttRing.WriteBlocking: returns because the modelled host reads at least one byte whenever the ring is full; a host that stops reading is covered by the step model, where the write stays pending.
- RttPrintf.Vprintf: formats whose precision overflows the digit divisor, the most negative int under %d, and formats that end inside a conversion are outside its precondition; the C code overflows or reads past the string there.
- RttPrintf.Printer.FirstDigit: precisions above 10 decimal or 8 hexadecimal digits, where the 32-bit divisor overflows and no digit string is defined (`RttPrintf.FitsExactly` is the exact bound).
- RttPrintf.Printer.StoreDigits: the same precisions.
- RttPrintf.Printer.PrintUnsigned: the same precisions.
- RttPrintf.Printer.Convert: the same precisions, and the most negative int under %d.
- RttPrintf.Printer.PrintAll: formats with such conversions, and formats that end inside a conversion.
- RttPrintf.Printer.PrintInt: the most negative int, whose negation overflows, and the same precisions.
- ParamManager.ParamStore.InitStore: record layouts with the sequence word elsewhere than at offset 1, or too short to hold all five words of the engine; no record of the firmware is laid out so.
- RecordRuns.RoundTrip: histories short enough that the 32-bit sequence number does not wrap.
- RodSafety.LimitInterlock: runs in which no rod tick meets a full block queue and other senders use their own device numbers.
- SysSafety.FaultLockOut: dispatches and rod ticks are atomic; a command preempting the middle of an enter action is not modelled.
- Stroke.RestoredWasCalibrated: how a float becomes a word is a parameter, so the statement holds up to that encoding.
- Power cuts that leave a word half programmed or a sector half erased, and flash operations that fail although the word was blank.
- The debug erase and fill functions of the record store, and two saves cut one after the other.
- Rod counters, the axis event groups nobody reads, and all printing.
- Hall speed estimation, polarity and hall debouncing, microsecond timers and the sensor drivers: inputs of this model.
- The float rounding of positions, currents and voltages.
- The semaphore and the tick pacing of the PWM thread; a command posted between two ticks takes effect at the next one.
- Registration of devices, message-queue capacity, mutexes and thread priorities beyond the handling order stated above.
- The RTT down buffers, channel configuration calls and locking; they repeat the ring operations above.
