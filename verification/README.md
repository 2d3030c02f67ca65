# Verification of the resonance module firmware

A Dafny model of five parts of the firmware, with proofs about every input,
every run or every interleaving of each. `dafny verify dfyconfig.toml` checks
the whole project.

**RTT ring buffers** (`RttRing`, `RttBuffer`, `RttBlocking`, `RttTerminal`,
`RttPrintf`). A ring is abstracted to the sequence of its unread bytes and to
its history, everything that ever went through it. The writers (no check, skip,
trim, blocking, overwriting) and the reader are methods of the class `Ring`
over the ring memory; each is proved to be a sequence operation. The blocking
writer is also cut into its single memory accesses and interleaved with a host
that moves the read offset at any time. On top of the rings are the sixteen
terminals, with a host decoder as their specification, and the number
formatter with its 64-character buffer.

**SystemView recorder** (`SysViewCodec`, `SysViewEncoder`, `SysViewMachine`,
`SysViewRecorder`, `SysViewHost`). The wire format has a parser as its specification.
`SysViewMachine` is the recorder as a machine of events, sync sequences,
switching and masking, in which free room and clock values are inputs; its
theorems are about all runs. `SysViewRecorder.Recorder` is the target's code:
the sender with its in-place packet buffer, the command handler that the sender
calls and that calls the sender, and the functions that record events. Its
`Valid` says that the fields are what the machine makes of a ghost log of
steps, so the theorems about runs hold of the object at all times. Where the
code reads a clock, where an allocation may fail and where the host acts, the
model takes an arbitrary value; what has been read from a clock is kept in order
in the ghost fields of `Clock`, and the recorded times are these readings.
Commands of the host are read and obeyed inside the sender, and each answer is
handed over before the sender returns. `SysViewHost` is a listener that rebuilds
the target's description from the recorder's messages.

**Acquisition** (`Acquisition`). Three DMA interrupts, one timer interrupt and
one task pass a measurement round around. Handlers can be interrupted between
any two register accesses, so they are steps of a machine, one step for an
access, with the interrupt controller's latching and the data register of each
SPI modelled. The hand-off is safe except for three short windows: a second
timer update or a second end of the sine table between clearing the flag and
disabling the interrupt, where it is latched, and one more sample between the
last transfer of a round and the end of its SPI, which the DMA finds when the
next round enables it before the register is read empty
(`resmod/acquisition/ltc2336spidamtrigger.cc:93-95`). The predicate `Quiet`
excludes exactly these. `TimerWindowBreaks`, `RollWindowBreaks`,
`DisableWindowBreaks` and `LateSampleBreaks` show for every state of the
invariant that an event in a window leads, by quiet events alone, to an ADC
started while it runs or to a calculation with a wrong waveform, and
`QuietIsExact` says that no other event does. Every round after the first begins
with the sine table (`RoundAwaitsWrap`); the start of the ADCs is tied to a timer
update only if the timer's flag, which nothing clears there, is down when the
timer interrupt is armed (`StartAwaitsUpdate`).

**Ethernet scatter and gather** (`Ethernet`, `EthernetInput`). A pbuf chain is
copied into the buffers of the descriptor ring, the DMA sends and receives
whole descriptors, and received buffers are copied into another chain. The two
segmentations are independent; the rings may have any number of buffers and be
entered at any descriptor, and the receiving scan is modelled for any ring,
whole frames or not. The two DMAs are methods that clear and need the OWN bits,
so that frames can be sent and received one after the other without end.

**FreeRTOS+IO** (`IoOwnership`, `CircularRx`). The heap is a map of live cells,
allocations fail arbitrarily, and freeing requires a live cell. The circular
receive buffer is proved against the sequence of its stored bytes.

Where the code and its own documentation disagree, the model follows the code:

- The overflow packet is documented to hold the number of dropped packets
  (`lib/segger/SEGGER_SYSVIEW.c:506-508`); the event whose loss begins a
  dropping phase is not counted, and masked events are. `EventsAreConserved`
  says what becomes of every event, `OverflowCountExact` and `DropCountExact`
  when the number is right, and `FirstLossIsNotReported` is an example.
- A comment promises that the overwriting writer handles multiple wrap-arounds
  (`lib/segger/SEGGER_RTT.c:612`); from the second wrap on the two offsets
  slip against each other. `OverwriteExactLength` gives the exact length.
- `_EncodeStr` is documented to write no more than 1 + Limit bytes
  (`lib/segger/SEGGER_SYSVIEW.c:386`). With n characters left of the text after
  the cut it does so if and only if n < 255 or n + 2 <= Limit (`StrBound`).
- `low_level_output` is documented to report a packet it could not send
  (`src/netif/ethernetif.c:146-147`); it always returns ERR_OK. The model's
  result is whether the frame was handed over.
- `SEGGER_RTT_vprintf` is documented to return the number of bytes stored in
  the ring; the value counts the characters left in the buffer twice
  (`lib/segger/SEGGER_RTT_printf.c:459-460`). Without an error it is right if
  and only if the number of characters is a multiple of the buffer's 64
  (`ReturnedExactly`, `Finish`).
- A precision from nine digits on in base 16 makes the 32-bit place value 0, and
  the number is divided by it (`HexPrecisionDividesByZero`).

## Model

| member | source | states |
|---|---|---|
| RttRing.StoreAppends | lib/segger/SEGGER_RTT.c:378-401 | Storing bytes that fit, from the write offset on, appends exactly them to the unread bytes, for every pair of offsets; nothing unread is overwritten |
| RttRing.ReadAdvances | lib/segger/SEGGER_RTT.c:479-528 | Advancing the read offset drops exactly the oldest bytes |
| RttRing.ReadPieces | lib/segger/SEGGER_RTT.c:496-527 | The two pieces of a read, with the 32-bit wrap of `WrOff - RdOff`, are together the oldest bytes |
| RttRing.OverwriteKeepsNewest | lib/segger/SEGGER_RTT.c:585-643 | After an overwriting write without a second wrap the unread bytes are the last `SizeOfBuffer - 1` of old ++ new |
| RttRing.OverwriteSlips | lib/segger/SEGGER_RTT.c:597-643 | What is left for the host after extra rounds: one byte for each but the first, modulo the size |
| RttRing.OverwriteExactLength | lib/segger/SEGGER_RTT.c:585-643 | The newest bytes are kept for all data if and only if the length is below `2 * SizeOfBuffer - 1 - WrOff` |
| RttBuffer.Ring.Config | lib/segger/SEGGER_RTT.c:1112-1119 | A configured ring other than the first is empty, whatever it held |
| RttBuffer.Ring.ConfigFirst | lib/segger/SEGGER_RTT.c:1112-1119 | Configuring the first ring changes its mode and keeps every byte in it |
| RttBuffer.Ring.GetAvailWriteSpace | lib/segger/SEGGER_RTT.c:438-454 | The free space is one less than the size minus the unread bytes |
| RttBuffer.Ring.WriteNoCheck | lib/segger/SEGGER_RTT.c:378-401 | Appends the bytes to the unread ones; memory and offset are those of the ring store |
| RttBuffer.Ring.WriteSkipNoLock | lib/segger/SEGGER_RTT.c:669-754 | All or nothing, exactly when the bytes fit; memory and offset end up as the check followed by `_WriteNoCheck` leaves them |
| RttBuffer.Ring.WriteChunk | lib/segger/SEGGER_RTT.c:337-355 | One round of the blocking writer stores as much as fits before the read offset and the end |
| RttBuffer.Ring.WriteBlocking | lib/segger/SEGGER_RTT.c:327-358 | Stores a prefix behind the old bytes without loss; all of it in two rounds when it fits, and all of it once the host has read in as many rounds as there are bytes, however it pauses between |
| RttBuffer.Ring.WriteNoLock | lib/segger/SEGGER_RTT.c:779-829 | What each of the three modes appends and returns; the blocking mode everything, under any host that reads often enough |
| RttBuffer.Ring.WriteWithOverwriteNoLock | lib/segger/SEGGER_RTT.c:585-643 | Leaves the contents that the lemmas about overwriting speak of: the newest bytes, when it does not wrap twice |
| RttBuffer.Ring.MakeRoom | lib/segger/SEGGER_RTT.c:593-610 | How the read offset is moved, with its 32-bit arithmetic and the loop that reduces it |
| RttBuffer.Ring.ReadNoLock | lib/segger/SEGGER_RTT.c:479-528 | Returns the oldest `min(available, BufferSize)` bytes in order and leaves the rest unread |
| RttBlocking.StepKeeps | lib/segger/SEGGER_RTT.c:327-358 | Every access of target or host keeps host bytes ++ unread bytes ++ remaining input, and the offsets in range |
| RttBlocking.BlockingWriteIsLossless | lib/segger/SEGGER_RTT.c:327-358 | The same over every interleaving of whole runs |
| RttBlocking.BlockingWriteDelivers | lib/segger/SEGGER_RTT.c:327-358 | At every point the host has a prefix of old ++ input, and when the call returns all of it is posted |
| RttBlocking.StepsAreCounted | lib/segger/SEGGER_RTT.c:333-355 | Over any interleaving the target has made one step for each byte and three for each round |
| RttBlocking.TwoRoundsWhenItFits | lib/segger/SEGGER_RTT.c:327-358 | With enough room on entry a call is finished in at most two rounds: it makes no more than one step a byte and three a round, and can step until it is finished, whatever the host does |
| RttBlocking.TargetFinishes | lib/segger/SEGGER_RTT.c:327-358 | From any point of such a call the target's own steps finish it |
| RttBlocking.TargetCanStep | lib/segger/SEGGER_RTT.c:333-355 | The target can take its next step until it has finished |
| RttTerminal.Terminals.PostTerminalSwitch | lib/segger/SEGGER_RTT.c:416-422 | Posts the two-byte switch sequence |
| RttTerminal.Terminals.SetTerminal | lib/segger/SEGGER_RTT.c:1259-1290 | Succeeds, and sends the two bytes, if and only if the id is below 16 and two bytes are free or the write waits; otherwise nothing changes |
| RttTerminal.Terminals.TerminalOut | lib/segger/SEGGER_RTT.c:1309-1382 | Text, whole or cut, between two switch sequences, or nothing: four free bytes decide in trim mode, four more than the text in skip mode; there the inner blocking writes do not wait |
| RttTerminal.TextIsShown | lib/segger/SEGGER_RTT.c:1309-1382 | A text comes out unchanged on the current terminal if and only if it holds no 0xFF |
| RttTerminal.CallIsDecoded | lib/segger/SEGGER_RTT.c:1259-1382 | After one call the host has shown the text on the requested terminal and is on the active one |
| RttTerminal.RunIsDecoded | lib/segger/SEGGER_RTT.c:1259-1382 | The same over any run of calls with any room for each |
| RttPrintf.DigitsEvaluate | lib/segger/SEGGER_RTT_printf.c:195-206 | The digits of a number evaluate back to it |
| RttPrintf.TopDigit | lib/segger/SEGGER_RTT_printf.c:196-198 | The quotient by the place value is the highest digit, the remainder has the others |
| RttPrintf.PrintedDigits | lib/segger/SEGGER_RTT_printf.c:148-160 | The digits printed stand for the number whatever the precision |
| RttPrintf.WrappedPowExact | lib/segger/SEGGER_RTT_printf.c:180-192 | The place value after `n` multiplications in 32 bits is the power if and only if the power is below 2^32 |
| RttPrintf.HexPrecisionDividesByZero | lib/segger/SEGGER_RTT_printf.c:180-198 | In base 16 the place value the number is divided by is 0 if and only if the precision is nine or more |
| RttPrintf.PrecisionFits | lib/segger/SEGGER_RTT_printf.c:180-192 | A 32-bit place value with enough digits for a precision exists if and only if `Base^(NumDigits-1) < 2^32` |
| RttPrintf.StoreEmits | lib/segger/SEGGER_RTT_printf.c:112-131 | One character: nothing lost without an error, a prefix in the ring after one |
| RttPrintf.SecondWriteRepeats | lib/segger/SEGGER_RTT_printf.c:112-131 | One character more after an error: the ring keeps a prefix if and only if one of the two writes took nothing |
| RttPrintf.PrefixByMode | lib/segger/SEGGER_RTT_printf.c:112-131 | For all data and all room the ring then keeps a prefix if and only if its mode is not trim |
| RttPrintf.TrimRepeats | lib/segger/SEGGER_RTT_printf.c:212-220 | A left-justified number in trim mode whose first byte comes twice |
| RttPrintf.Printer.StoreChar | lib/segger/SEGGER_RTT_printf.c:112-131 | Buffering, writing of the full buffer and the return value, for whatever the ring can take in its mode |
| RttPrintf.Printer.Pad | lib/segger/SEGGER_RTT_printf.c:168-174 | Padding emits exactly the missing characters and says what is left of the field width |
| RttPrintf.Printer.ComputeWidth | lib/segger/SEGGER_RTT_printf.c:148-160 | The width is the larger of the number of digits and the precision |
| RttPrintf.Printer.PlaceValue | lib/segger/SEGGER_RTT_printf.c:180-192 | `Digit *= Base` never wraps, and ends at `Base^(Width-1)` |
| RttPrintf.Printer.PutDigits | lib/segger/SEGGER_RTT_printf.c:196-204 | Writes the `Width` digits, highest first |
| RttPrintf.Printer.PrintUnsigned | lib/segger/SEGGER_RTT_printf.c:137-221 | Emits the number in its field, or a prefix after an error, in every mode but trim; in trim mode unless it is left-justified |
| RttPrintf.Printer.PrintInt | lib/segger/SEGGER_RTT_printf.c:227-297 | The same with sign, under every combination of flags; the smallest integer excluded |
| RttPrintf.IntIsRead | lib/segger/SEGGER_RTT_printf.c:227-297 | A reader of numbers gets every printed integer back, for all bases, precisions, widths and flags; a '+' stands there exactly when asked for and the number is not negative; zeros or spaces fill the field on the side asked for |
| RttPrintf.UnsignedIsRead | lib/segger/SEGGER_RTT_printf.c:137-221 | The same for unsigned numbers |
| RttPrintf.Layout | lib/segger/SEGGER_RTT_printf.c:227-297 | The total length is the larger of the field width and sign plus digits |
| RttPrintf.ReturnedExactly | lib/segger/SEGGER_RTT_printf.c:452-461 | The value returned is the number of characters if and only if that is a multiple of the buffer size |
| RttPrintf.Printer.Finish | lib/segger/SEGGER_RTT_printf.c:452-461 | Writes what is left in the buffer; the value returned is the number of bytes stored if and only if nothing was left |
| SysViewCodec.ParseU32Inverts | lib/segger/SEGGER_SYSVIEW.c:300-311 | An encoded integer is read back, whatever follows |
| SysViewCodec.EncodeU32Length | lib/segger/SEGGER_SYSVIEW.c:300-311 | Five bytes are enough for 32 bits |
| SysViewCodec.StrRoundTrip | lib/segger/SEGGER_SYSVIEW.c:388-420 | A string is read back if and only if it is shorter than 65536 |
| SysViewCodec.FieldsRoundTrip | lib/segger/SEGGER_SYSVIEW.c:1315-1325 | A list of fields is read back |
| SysViewCodec.HeaderRoundTrip | lib/segger/SEGGER_SYSVIEW.c:680-696 | An id or length is read back from its one or two header bytes if and only if it is below 16384 |
| SysViewCodec.PacketLength | lib/segger/SEGGER_SYSVIEW.c:673-702 | Header and time stamp take no more than the 4 bytes before and 5 after the payload |
| SysViewCodec.PacketRoundTrip | lib/segger/SEGGER_SYSVIEW.c:673-702 | One packet is read back, whatever follows |
| SysViewCodec.StreamRoundTrip | lib/segger/SEGGER_SYSVIEW.c:624-748 | Any concatenation of packets is taken apart into them |
| SysViewCodec.StreamIsUnique | lib/segger/SEGGER_SYSVIEW.c:624-748 | Two lists of packets with the same bytes are the same list |
| SysViewCodec.SyncIsFiveNops | lib/segger/SEGGER_SYSVIEW.c:257 | The sync sequence reads as five dummy packets |
| SysViewEncoder.EncodeU32At | lib/segger/SEGGER_SYSVIEW.c:300-311 | Writes the encoded integer in place and returns the position behind it |
| SysViewEncoder.EncodeStrAt | lib/segger/SEGGER_SYSVIEW.c:388-420 | Writes length and characters of a C string, cut at the limit, in place |
| SysViewEncoder.StrBound | lib/segger/SEGGER_SYSVIEW.c:380-420 | With `n` characters after the cut, no more than 1 + Limit bytes are written if and only if `n < 255` or `n + 2 <= Limit` |
| SysViewEncoder.StrLen | lib/segger/SEGGER_SYSVIEW.c:395-398 | The scan stops at the first terminator |
| SysViewEncoder.HeaderBefore | lib/segger/SEGGER_SYSVIEW.c:681-695 | Writes an id or length backwards in front of a position |
| SysViewEncoder.Prepend | lib/segger/SEGGER_SYSVIEW.c:677-696 | Id below 24 alone, otherwise id and length, in front of the payload |
| SysViewEncoder.FinishPacket | lib/segger/SEGGER_SYSVIEW.c:673-702 | The payload ends up between its header and its time stamp in the same memory |
| SysViewMachine.ClockIsSum | lib/segger/SEGGER_SYSVIEW.c:700-702 | The host's clock is the start time plus the sum of all deltas, modulo 2^32 |
| SysViewMachine.DeltasAddUp | lib/segger/SEGGER_SYSVIEW.c:535-538 | Adding wrapped differences gives back every absolute time |
| SysViewMachine.StepKeepsWire | lib/segger/SEGGER_SYSVIEW.c:624-748 | Every step keeps: the bytes are those of the packets stored, and the last time is that of the last one |
| SysViewMachine.StepBalances | lib/segger/SEGGER_SYSVIEW.c:641-712 | One step: an event to be recorded is one more event packet or one more loss, and a dropping phase begins, ends in an overflow packet, or is given up |
| SysViewMachine.TimestampsReconstruct | lib/segger/SEGGER_SYSVIEW.c:522-748 | After any run a host that parses the bytes and adds the deltas has every packet with its time, and `LastTxTimeStamp` |
| SysViewMachine.EventsAreConserved | lib/segger/SEGGER_SYSVIEW.c:522-712 | After any run the events that found recording enabled and were not masked are as many as the event packets stored plus the losses, and the dropping phases as many as the overflow packets stored, those given up by a stop, and one while dropping |
| SysViewMachine.DropCountExact | lib/segger/SEGGER_SYSVIEW.c:542-657 | The drop counter equals offered less stored events if and only if as many masked events came while dropping as phases began, modulo 2^32 |
| SysViewMachine.OverflowCountExact | lib/segger/SEGGER_SYSVIEW.c:506-551 | Without masking the number in an overflow packet is the losses less the overflow packets so far, itself included, and the phases given up; it is never right in the first 2^32 - 1 phases |
| SysViewMachine.StepKeepsTimes | lib/segger/SEGGER_SYSVIEW.c:530-548 | What a step stores bears the time read from the clock in that step |
| SysViewMachine.NothingWhileOff | lib/segger/SEGGER_SYSVIEW.c:634-641 | While recording is off nothing is stored |
| SysViewMachine.StartIsSeen | lib/segger/SEGGER_SYSVIEW.c:1635-1642 | From off, the start packet is the next event stored if and only if it fits and is not masked |
| SysViewMachine.StopIsLast | lib/segger/SEGGER_SYSVIEW.c:1681-1690 | The stop packet, behind an overflow packet while dropping, is the last thing stored until the next start |
| SysViewMachine.FirstLossIsNotReported | lib/segger/SEGGER_SYSVIEW.c:522-551 | One loss, and an overflow packet that reports none |
| SysViewRecorder.Recorder.Init | lib/segger/SEGGER_SYSVIEW.c:1226-1252 | Recording is off and time starts with what the clock shows |
| SysViewRecorder.Recorder.HostSees | lib/segger/SEGGER_SYSVIEW.c:624-748 | In every state of the recorder the host recovers all stored packets with their times; the times, sync packets apart, are what was read from the clock, in order; every event handed over to be recorded is one of them or lost; and the drop counter is what the losses, overflow packets and masked events make it |
| SysViewRecorder.Recorder.SilentWhenStopped | lib/segger/SEGGER_SYSVIEW.c:1681-1690 | After a stop the bytes stored stay those that were there, until recording is started again |
| SysViewRecorder.StartIsAnswered | lib/segger/SEGGER_SYSVIEW.c:464-467 | A host whose start command is obeyed gets the sync sequence if it fits, and next a packet of id 10 if it fits and is not masked |
| SysViewRecorder.StopIsAnswered | lib/segger/SEGGER_SYSVIEW.c:468-470 | A host whose stop command is obeyed gets a packet of id 11 if it fits and is not masked, and nothing more until the next start |
| SysViewRecorder.Recorder.BuildOverflow | lib/segger/SEGGER_SYSVIEW.c:522-538 | The overflow packet fits its 11 bytes and is the encoded one |
| SysViewRecorder.Recorder.TrySendOverflowPacket | lib/segger/SEGGER_SYSVIEW.c:522-551 | Stored exactly when it fits, with the time read in this call, and then recording is on again; otherwise one more is counted |
| SysViewRecorder.Recorder.TrySendEvent | lib/segger/SEGGER_SYSVIEW.c:662-712 | A masked event changes nothing; any other is stored exactly when it fits, with the time read in this call, otherwise dropping begins |
| SysViewRecorder.Recorder.Transmit | lib/segger/SEGGER_SYSVIEW.c:624-712 | One machine step, with the times read from the clock in this call; nothing is lost that fits into the room on entry |
| SysViewRecorder.Recorder.SendPacket | lib/segger/SEGGER_SYSVIEW.c:624-748 | Hands on exactly its packet; a waiting command is obeyed before it returns: its answer and nothing else is handed over one level deeper, start and stop switch recording; never nests more than two deep, and terminates with `1 - RecursionCnt` leading |
| SysViewRecorder.Recorder.ServeHost | lib/segger/SEGGER_SYSVIEW.c:727-742 | A waiting command is taken with its parameter and obeyed, after a stop recording is off, after a start it is on; none while one is being obeyed |
| SysViewRecorder.Recorder.HandleIncomingPacket | lib/segger/SEGGER_SYSVIEW.c:457-498 | Takes one command, with its parameter from 128 on, and obeys it: exactly the answer is sent, with a system time read in this call, and nothing else is switched |
| SysViewRecorder.Recorder.RecordVoid | lib/segger/SEGGER_SYSVIEW.c:1272-1278 | Sends the event without payload |
| SysViewRecorder.Recorder.RecordU32s | lib/segger/SEGGER_SYSVIEW.c:1292-1589 | Sends the event with up to ten encoded parameters |
| SysViewRecorder.Recorder.RecordString | lib/segger/SEGGER_SYSVIEW.c:1606-1614 | Sends the string, cut at 128 characters |
| SysViewRecorder.Recorder.SendUserPacket | lib/segger/SEGGER_SYSVIEW.c:2190-2199 | Sends a packet encoded by the caller |
| SysViewRecorder.Recorder.Start | lib/segger/SEGGER_SYSVIEW.c:1635-1666 | From off: on, sync sequence, then start, init, description, time, tasks and modules, in this order; otherwise nothing |
| SysViewRecorder.Recorder.Stop | lib/segger/SEGGER_SYSVIEW.c:1681-1690 | One stop event if recording, and then recording is off |
| SysViewRecorder.Recorder.GetSysDesc | lib/segger/SEGGER_SYSVIEW.c:1700-1715 | Sends init and the descriptions |
| SysViewRecorder.Recorder.SendTaskInfo | lib/segger/SEGGER_SYSVIEW.c:1728-1746 | Sends the task and its stack, with the id relative to the RAM base |
| SysViewRecorder.Recorder.SendTaskList | lib/segger/SEGGER_SYSVIEW.c:1755-1759 | Sends every task in order |
| SysViewRecorder.Recorder.SendSysDesc | lib/segger/SEGGER_SYSVIEW.c:1780-1788 | Sends one description string |
| SysViewRecorder.Recorder.RecordSystime | lib/segger/SEGGER_SYSVIEW.c:1798-1809 | Sends the 64-bit system time in two parts, or the time stamp clock, as read in this call |
| SysViewRecorder.Recorder.SendNumModules | lib/segger/SEGGER_SYSVIEW.c:2490-2498 | Sends the number of modules as the byte it is kept in |
| SysViewRecorder.Recorder.SendModule | lib/segger/SEGGER_SYSVIEW.c:2430-2459 | Sends the module at that place of the list, or nothing behind its end |
| SysViewRecorder.Recorder.RecordModuleDescription | lib/segger/SEGGER_SYSVIEW.c:2389-2418 | Sends the text under the module's number, counted in a byte |
| SysViewRecorder.Recorder.SendModuleDescription | lib/segger/SEGGER_SYSVIEW.c:2469-2481 | Sends all texts of all modules in order |
| SysViewRecorder.Recorder.EnableEvents | lib/segger/SEGGER_SYSVIEW.c:2744-2746 | The events whose bits are set in the 32-bit mask are no longer masked; all others are as before |
| SysViewRecorder.Recorder.DisableEvents | lib/segger/SEGGER_SYSVIEW.c:2758-2760 | The events whose bits are set in the 32-bit mask are masked; all others are as before |
| SysViewHost.StartIsHeard | lib/segger/SEGGER_SYSVIEW.c:1635-1666 | A listener to a start knows frequencies, RAM base, every task with its id, priority, name and stack, the descriptions, the time and the number of modules |
| SysViewHost.IdIsRebuilt | lib/segger/SEGGER_SYSVIEW.c:1733 | An id is rebuilt from the RAM base but for its two lowest bits above it |
| SysViewHost.WordIdsAreExact | lib/segger/SEGGER_SYSVIEW.c:1733 | It is rebuilt exactly if and only if it lies a multiple of four above the RAM base |
| SysViewHost.AnswerIsHeard | lib/segger/SEGGER_SYSVIEW.c:457-498 | What a listener learns from the answer to each command |
| SysViewHost.TextsAreSorted | lib/segger/SEGGER_SYSVIEW.c:2389-2418 | With no more than 256 modules the texts are sorted to their modules by number |
| Acquisition.StepKeeps | resmod/interrupts/dma1.cc:43-62 | Every step of handler, DMA, timer or task keeps the invariant of the hand-off |
| Acquisition.ServedKeeps | resmod/acquisition/ltc2336spidamtrigger.cc:77-87 | Each register access of an ADC handler takes the round one stage on, the waveform untouched |
| Acquisition.SingleRound | resmod/excitation/excitation.cc:111-116 | In every reachable state exactly one of the five parties holds the round |
| Acquisition.NeverTriggeredWhileBusy | resmod/interrupts/tim.cc:48-54 | An ADC is started only when it is at rest and its last waveform was taken; until its SPI is on no more than a leftover sample has been moved |
| Acquisition.NeverGivenWhileFull | resmod/calcmodule/calctask.cc:50-66 | A semaphore is given only when it is empty |
| Acquisition.CopyIsUndisturbed | resmod/calcmodule/calctask.cc:76-80 | While the waveforms are copied no DMA can write to either buffer |
| Acquisition.CalculationsArePaired | resmod/calcmodule/calctask.cc:75-83 | The n-th calculation has both complete waveforms of the n-th round if no sample came late; otherwise all samples but perhaps the first, and that one too exactly when the round began without a leftover |
| Acquisition.RoundsAreConserved | resmod/calcmodule/calctask.cc:75-91 | No round is lost and none calculated twice |
| Acquisition.RoundAwaitsWrap | resmod/calcmodule/calctask.cc:89-90 | Every round after the first comes after the clearing of stream 2's flag that followed the last calculation, and after an end of the sine table since then |
| Acquisition.StartAwaitsUpdate | resmod/excitation/excitation.cc:111-116 | A timer update lies between the arming of the timer and the start of the ADCs in every run, if and only if its flag was down |
| Acquisition.Advances | resmod/calcmodule/calctask.cc:75-91 | In every state of the invariant some possible event brings the next calculation closer |
| Acquisition.NeverStuck | resmod/calcmodule/calctask.cc:75-91 | Every run can be continued to one more calculation |
| Acquisition.TimerWindowBreaks | resmod/interrupts/tim.cc:48-54 | Whenever the timer updates between its flag being cleared and its interrupt disabled, quiet events lead to an ADC being started while it runs |
| Acquisition.RollWindowBreaks | resmod/interrupts/dma1.cc:43-48 | The same whenever stream 2 completes between its flag being cleared and the roll callback |
| Acquisition.DisableWindowBreaks | resmod/excitation/excitation.cc:111-116 | The same between the roll callback and the disabling, whether the timer has fired or not |
| Acquisition.LateSampleBreaks | resmod/acquisition/ltc2336spidamtrigger.cc:77-95 | Whenever a sample arrives between the last transfer and the end of the SPI, quiet events lead to a calculation that uses it |
| Acquisition.QuietIsExact | resmod/acquisition/ltc2336spidamtrigger.cc:77-95 | From any state reached without late samples, an event can be followed by quiet events to a busy start or a wrong waveform if and only if it lies in one of the windows |
| Ethernet.ReadsBackExactly | src/netif/ethernetif.c:178-208 | Frames of a length survive in the ring, whatever they hold, if and only if they fit into all its buffers |
| Ethernet.Driver.CopyPbuf | src/netif/ethernetif.c:178-213 | One pbuf is laid behind the ones before it, or a descriptor the frame needs is not free |
| Ethernet.Driver.PrepareTransmitDescriptors | src/netif/ethernetif.c:218-219 | Hands over as many descriptors as the frame takes, marked first and last, all full but the last |
| Ethernet.Driver.LowLevelOutput | src/netif/ethernetif.c:155-235 | Sent exactly when every descriptor the frame needs is free; then the payloads lie in order in the buffers; otherwise nothing is handed over |
| Ethernet.WireFrom | src/netif/ethernetif.c:218-219 | What the DMA sends from one descriptor on is the rest of the frame; it begins at a first segment only |
| Ethernet.WireCarriesFrame | src/netif/ethernetif.c:172-219 | A frame that fits into the ring is sent byte for byte |
| EthernetInput.CountedFrom | src/netif/ethernetif.c:258-259 | A frame is counted from the last descriptor that begins one, whatever was counted before |
| EthernetInput.CountIsRight | src/netif/ethernetif.c:258-259 | First descriptor and count are those of the descriptors scanned if and only if none but the first begins a frame, and it does so or nothing is left over |
| EthernetInput.FrameIsFound | src/netif/ethernetif.c:258-259 | A complete frame is found and counted from its first descriptor to its last |
| EthernetInput.PartIsCounted | src/netif/ethernetif.c:258-259 | Of a frame that is still arriving the descriptors so far are counted and no frame is given, which is where `LowLevelInput` goes wrong |
| EthernetInput.Receiver.GetReceivedFrame | src/netif/ethernetif.c:258-263 | The scan of any ring stops at the end of a frame, a descriptor of the DMA or after all; what it counts, and the length and first descriptor it gives |
| EthernetInput.Receiver.FillPbuf | src/netif/ethernetif.c:275-302 | One pbuf gets the next bytes of the frame, over buffer ends |
| EthernetInput.Receiver.FillChain | src/netif/ethernetif.c:275-302 | The chain gets the frame, in the given lengths |
| EthernetInput.Receiver.Release | src/netif/ethernetif.c:304-315 | `Seg_Count` descriptors from the first on belong to the DMA, and all others are as they were |
| EthernetInput.Receiver.LowLevelInput | src/netif/ethernetif.c:245-323 | For any ring: a frame is copied or dropped, the counted descriptors belong to the DMA again and all others are as they were; it goes wrong if and only if descriptors were counted and no frame ended, or one of unknown beginning |
| EthernetInput.FrameRoundTrip | src/netif/ethernetif.c:172-308 | Scattered, sent, received and gathered, a frame is what it was |
| EthernetInput.RoundTrip | src/netif/ethernetif.c:155-323 | Output and input back to back, with any segmentation on either side and rings of any two sizes, give back the same bytes; the descriptors go back to whom they belonged, and each DMA stands where its driver does |
| EthernetInput.RoundTrips | src/netif/ethernetif.c:155-323 | So does any number of frames in a row |
| IoOwnership.Memory.CreateTransferControlStructure | lib/freertos-plus-io/common/FreeRTOS_IOUtils.c:53-144 | Creates the control structure, or frees exactly what its state owns |
| IoOwnership.Memory.ConfigureZeroCopyTx | lib/freertos-plus-io/common/IOUtils_ZeroCopyTx.c:53-108 | Succeeds exactly when no allocation fails; a failure leaves NULL and frees everything |
| IoOwnership.Memory.ConfigureTransferQueue | lib/freertos-plus-io/common/IOUtils_CharQueueTxAndRx.c:73-137 | For any request code: succeeds exactly when no allocation fails, and the structure is then complete and owns what was allocated if and only if the low byte is a queue mode |
| IoOwnership.Peripheral.ConfigureTransferQueue | lib/freertos-plus-io/common/IOUtils_CharQueueTxAndRx.c:73-137 | Everything but the transmit request configures reception, and leaves transmission as it was |
| IoOwnership.Memory.ConfigureCircularBufferRx | lib/freertos-plus-io/common/IOUtils_CircularBufferRx.c:53-126 | The same for the circular buffer with its semaphore |
| IoOwnership.OneSideChanged | lib/freertos-plus-io/common/FreeRTOS_IOUtils.c:53-144 | Configuring one direction leaves the other, and all that belongs to others, as it was |
| IoOwnership.Peripheral.Configure | lib/freertos-plus-io/common/IOUtils_CharQueueTxAndRx.c:73-137 | One request of any mode keeps both directions complete and disjoint |
| IoOwnership.Peripheral.ConfigureAll | lib/freertos-plus-io/common/FreeRTOS_IOUtils.c:53-144 | So does any sequence of requests with any pattern of failures |
| IoOwnership.Peripheral.NothingLeaks | lib/freertos-plus-io/common/FreeRTOS_IOUtils.c:53-144 | The live cells are exactly those the two control pointers own |
| CircularRx.StoredSnoc | lib/freertos-plus-io/include/IOUtils_CircularBufferRx.h:67-79 | A byte stored at the write index is the newest |
| CircularRx.CircularBuffer.InsertOne | lib/freertos-plus-io/include/IOUtils_CircularBufferRx.h:67-87 | One round moves one byte from the receiver to the end of the stored ones, or notes an overrun and takes none |
| CircularRx.CircularBuffer.InsertFromIsr | lib/freertos-plus-io/include/IOUtils_CircularBufferRx.h:60-96 | As many rounds as the condition holds: as many bytes are stored as there is room for, and without room the overrun is noted and the byte not taken |
| CircularRx.InterruptEnds | lib/freertos-plus-io/include/IOUtils_CircularBufferRx.h:67-87 | With bytes waiting as its condition these rounds end if and only if all bytes fit; otherwise they stay in one state for ever |
| CircularRx.CircularBuffer.ReadChars | lib/freertos-plus-io/common/IOUtils_CircularBufferRx.c:141-206 | Two attempts return the oldest `min(n, count)` bytes, except from a full buffer, which gives none and does not change |
| CircularRx.CircularBuffer.Clear | lib/freertos-plus-io/common/IOUtils_CircularBufferRx.c:129-138 | Empties the buffer and takes one signal |

## Left out

- The locks around the RTT and SystemView calls, and a second target-side writer: every call runs alone on the target, as the locks make it.
- The post-mortem build of SystemView, and the build without the static packet buffer.
- SetRAMBase, RegisterModule, NameResource and the wrappers for single kernel events: they record numbers and strings like the calls that are there.
- The host-side and target-side printf of SystemView: the RTT formatter is modelled.
- The parsing of format strings in `SEGGER_RTT_vprintf`, and the 'c', 's' and 'p' specifiers.
- WriteBlocking: is observed for as many rounds as the schedule of the host has entries; a schedule with too few ends the call early, where the code would still wait. `RttBlocking` has no such end.
- WriteSkipNoLock: requires at least one byte, as its copy loop does; the host acts before and after the call, not inside it, since the call reads the read offset once.
- TerminalOut: the terminal id is an unsigned character.
- PrintUnsigned: in trim mode, after an error inside a left-justified number, nothing is said of the bytes; `TrimRepeats` shows that they need not be a prefix.
- PrintUnsigned: requires a precision whose place value fits 32 bits, as does PrintInt; `PrecisionFits`, `WrappedPowExact` and `HexPrecisionDividesByZero` say what a larger one does.
- PrintInt: the smallest integer, whose negation is undefined in C.
- The callbacks of application, operating system and modules are finite lists of what they record.
- Register accesses are single steps; a read-modify-write that is interrupted half way is not modelled. Of a data register it is kept whether it holds a sample too many, not how many overran it.
- The calculation itself, the delay after it, and the trigger path over EXTI0.
- LowLevelOutput: what the DMA does to the OWN bits while the copy runs; it can only free descriptors.
- The descriptor functions `ETH_Prepare_Transmit_Descriptors` and `ETH_Get_Received_Frame_interrupt` are modelled as the vendor's driver writes them (`stm32f4xx_eth.c`, lines 1156-1304); the rows about them name the places where they are called. The time-out and error bits they do not look at are left out.
- Frames that are received with errors, and the checksum offloading of the MAC.
- The blocking receive loop of the circular buffer with its time-outs; the read is modelled with the peripheral's interrupt off, as that loop leaves it.
- `IoOwnership` leaves out the transfers themselves, the write mutex, and drivers that share a polled state between directions beyond not freeing it twice.
- The PHY drivers, lwIP, the ADARA packet flow, CAN and the uC/OS-III trace.
