# Verified model of the Cynthion capture pipeline and USB device stack

This project models the two stateful cores of Cynthion in Dafny and proves what they are for.

**The capture pipeline (gateware).** `UsbAnalyzer` captures USB packets into a ring buffer
from two clock domains. Its words pass through `HyperRamFifo` (a deep FIFO in external
memory), `Stream16to8` (words to bytes) and `AsyncFifo` (a Gray-code clock crossing whose
reset belongs to the read side). Each stage is a step function on its registers, a class that
updates those registers in place and is proved equal to the step function, and an invariant
against unbounded history. `CaptureSpec` says what a capture session should deliver without
any buffer. `CapturePipeline` wires the four stages as the gateware's top level does and
proves that the whole chain is a queue of packets: what the host takes parses to exactly the
packets and rollover events of the session. `CaptureDrain` shows that every
environment that keeps moving empties it. `AnalyzerRuns` holds runs in which data are lost.

**The USB device stack (firmware).** `UsbDriver` is the blocking packet writer, running
against an interrupt that may fire whenever the writer looks; `Packetisation` is what its
packets mean to a host. `Descriptors` and `Device` serialise descriptors and answer requests
for them. `Control` is the control endpoint's state machine, and `ControlOverUsb` puts it on
the writer. `Moondancer` is the firmware's event, setup-packet and data-packet queues and the
commands that drain them.

`Modular` (wrapping counters, rings and sequences), `GrayCode`, `Words` and `Options` are shared.

## How the hardware and the environment are modelled

- A usb cycle of the analyzer is two sync edges, the second coinciding with the usb edge; the
  pins and the capture enable hold still across it, and the reader answers at each sync edge.
- The analyzer's depth is any d >= 4 (the registers wrap modulo d, as they do for powers of
  two); the clock crossing's depth is any power of two from 2 on.
- The ring is safe for its reader exactly when every sync edge is clear: what it commits finds
  room, and what it writes spares the unread words or leaves them as they are
  (`UsbAnalyzer.RunSafeIff`, over every run). The round trip assumes that, and packets of at most
  4090 bytes that the ring can hold (1027 is the most USB allows). A hypothesis that can be checked
  ahead is enough for it: a packet starts with at most d - 4 committed words, a rollover event with
  at most d - 3 (`UsbAnalyzer.SpaceSuffices`).
- A synchroniser may catch a changing Gray code bit by bit, old or new; a reset's jump of
  several codes is taken to be caught whole. A slot read at the instant it is written gives
  anything.
- The PSRAM latches address and direction at the start of a transfer, strobes one word at a
  time while it lasts, and ends it with the strobe that carries `final_word`. The output FIFO
  is a queue.
- On the firmware side, bytes written to the data register collect in the IN FIFO and writing
  the endpoint register sends them as one packet, outstanding until acknowledged. Driver calls
  made by `Control` and `Moondancer` are returned as data and, in `ControlOverUsb`, executed
  in order after the step. A panic ends a run, and so does an endless loop of no-ops.

## Where the code and what is said of it disagree

- `fifo.py` line 123 says the deep FIFO reads when the output FIFO is less than half full; the
  code tests the top bit of a level that counts up to a power of two, that is, not full. The
  model follows the code (`HyperRamFifo.HighBit`).
- The overrun test of `analyzer.py` line 248 is an equality and is only made for packet bytes;
  header reservations and events are not checked. Exactly when the reader is safe all the same:
  `UsbAnalyzer.RunSafeIff`, and for the count alone `UsbAnalyzer.RunCountsIff`. Runs from power-on
  in which it is not: committed words vanish (`AnalyzerRuns.LostPacketRun`,
  `AnalyzerRuns.LostEventRun`), or are overwritten while every count stays true
  (`AnalyzerRuns.CorruptedRun`).
- The clock crossing's read address is not redirected at a reset, so the word shown after one
  can be wrong: exactly when, `AsyncFifo.ResetHeadExact`; a run, `AsyncFifo.UncleanResetExample`.
  Words accepted after the reset are never affected (`AsyncFifo.DeliversSinceLastReset`). Bytes that
  had not crossed by the reset still come out before the new session's; when there are none:
  `CapturePipeline.DiscardLeavesNothingIff`.
- `control.rs` line 345 speaks of truncating; the code drops the packet that does not fit, and
  the transfer then never reaches its announced length (`Control.FinishesIff`).
- `control.rs` drops a SETUP packet that arrives in any state but idle or stalled
  (`Control.DroppedIff`), where section 8.5.3 of USB 2.0 has it begin a new transfer. A request
  for a descriptor that is not offered leaves the machine in such a state, though it is handed
  back (`Control.HandedBackLosesNextIff`, `Device.HandedBackIff`).
- `control.rs` line 91 keeps the configuration and the wake-up feature across a bus reset
  (`Control.ReportsLastSet`), where section 9.1.1.3 of USB 2.0 has the device return to its default
  state.
- `control.rs` line 214 answers a status request on endpoint 0 whatever the machine's own
  endpoint (`ControlOverUsb.WritesOwnEndpointIff`).
- `device.rs` line 142 guards string numbers with one too many (`Device.PanicsExactly`), and the
  Microsoft string is not cut to the requested length (`Device.OffersDescriptor`,
  `Packetisation.UncutAnswerIff`).
- The header of a string descriptor counts UTF-8 bytes and truncates the count; when it is true
  all the same: `Descriptors.StringLengthExact`.
- `moondancer.rs` line 134 ignores which endpoint completed (`Moondancer.OwnStatusSetsAddressIff`).
- Disconnecting flushes the event and setup queues but not the buffered packets; what the host
  then reads: `Moondancer.ReadsAcrossDisconnectIff`, `Moondancer.StaleAfterDisconnectIff`.
- `moondancer.rs` lines 639-660 wait for the flag that an expired wait inside the write has
  cleared, and so report success. With nothing outstanding, bytes left in the FIFO always lead
  there, with nothing sent, and an answer of less than a packet into an empty FIFO never does;
  of longer answers the host decides (`Moondancer.Firmware.WriteControlEndpointVerb`).
- The interrupt handler clears the flag of the endpoint the register names when it runs, whichever
  packet was acknowledged: with a transmission outstanding, a wait ends one packet early
  (`UsbDriver.WaitEndsCleanIff`, `UsbDriver.Usb.PushAll`).

## Model

| member | source | states |
|---|---|---|
| `CapturePipeline.HostReceivesSession` | cynthion/python/src/gateware/analyzer/top.py:331-358 | For every run of the wired chain (any number of sessions, any PSRAM timing, any host): the bytes the host has taken this session, then those in the clock crossing, the converter, the deep FIFO and the ring, are the byte split of words that parse to exactly the session's items; the items whole in what it has taken are the session's first, and when the chain is empty they are all; without an overrun they are what the pins showed. |
| `CapturePipeline.NextKeepsInv` | cynthion/python/src/gateware/analyzer/top.py:346-358 | Every usb cycle of the whole chain keeps all four stages' invariants and the links between them, through the resets of a new session too. |
| `CapturePipeline.LinkStage` | cynthion/python/src/gateware/analyzer/top.py:346-349 | What each stage takes is what the one before gave, and the analyzer always has the next word when the deep FIFO's burst counts on it (so that FIFO's assumption on its source is discharged). |
| `CapturePipeline.BytesConserved` | cynthion/python/src/gateware/analyzer/top.py:346-350 | No committed byte is lost, duplicated or reordered anywhere in the chain. |
| `CapturePipeline.ReceivedInOrder` | cynthion/python/src/gateware/analyzer/top.py:350-358 | The session's bytes taken by the host, followed by those still crossing, are the bytes the converter gave, whether or not the reset that began the session was clean. |
| `CapturePipeline.DiscardLeavesNothingIff` | cynthion/python/src/gateware/analyzer/top.py:332-357 | A usb cycle that discards leaves no byte of an earlier session if and only if the reader already saw the writer's pointer and the converter put no byte in at the cycle's first edge. |
| `CapturePipeline.JoinSplit` | cynthion/python/src/gateware/analyzer/fifo.py:144-148 | Joining bytes high byte first undoes the converter's split, for every word sequence. |
| `CapturePipeline.FirstItems` | cynthion/python/src/gateware/analyzer/analyzer.py:57-62 | Of a byte stream that parses, the items whole in any beginning of it are the first items. |
| `CapturePipeline.SomeInputFits` | cynthion/python/src/gateware/analyzer/top.py:331-358 | The assumptions on PSRAM, synchronisers and host never block a run: for any pins for which the ring has room while nothing is read, some environment behaviour satisfies them all. |
| `CapturePipeline.PowerOnInv` | cynthion/python/src/gateware/analyzer/top.py:334-342 | Power-on, with any memory contents, satisfies the whole chain's invariant. |
| `CaptureDrain.KeepsMovingDrains` | cynthion/python/src/gateware/analyzer/top.py:331-358 | Every environment that keeps moving, with no more than some number of cycles in a row in which it is asked for something and does nothing it is asked for, empties every stage within a bound that depends only on what is left, and the host's own parse is then exactly the session's items. |
| `CaptureDrain.EverySessionCanBeRead` | cynthion/python/src/gateware/analyzer/top.py:331-358 | From wherever a run has led, even in the middle of a packet, there is a continuation after which the host's own parse is exactly the session's items so far. |
| `CaptureDrain.CycleMoves` | cynthion/python/src/gateware/analyzer/top.py:346-358 | While nothing begins, what is left in the chain never grows, and every cycle in which the environment answers or is not asked makes it less, so nothing deadlocks. |
| `UsbAnalyzer.CaptureRoundTrip` | cynthion/python/src/gateware/analyzer/analyzer.py:124-331 | Capture round trip for every pin trace and back-pressure whose edges are all clear, with packets of at most 4090 bytes that the ring can hold: committed words parse to the session's items; words passed on, on offer and in the ring are the committed words in order; without overrun the items are the ideal capture of the pins; item times satisfy the clock invariant. |
| `UsbAnalyzer.CycleKeepsInv` | cynthion/python/src/gateware/analyzer/analyzer.py:124-331 | Every usb cycle whose two sync edges are clear, in a packet not too long, keeps the invariant: read address plus count is the commit point, no unread word is overwritten, the partial packet is intact, the committed words parse to the session's items. |
| `UsbAnalyzer.SyncKeepsReader` | cynthion/python/src/gateware/analyzer/analyzer.py:124-174 | A sync edge whose writes and commits stay clear of unread words keeps the reader's side: count, read address, ring contents, stream order and honest `last`. |
| `UsbAnalyzer.EdgeClearIff` | cynthion/python/src/gateware/analyzer/analyzer.py:124-174 | Any sync edge keeps the count true and the unread words whole if and only if what it commits finds room and what it writes spares the unread words or leaves them as they are: a condition on the registers. |
| `UsbAnalyzer.ClearKeepsReader` | cynthion/python/src/gateware/analyzer/analyzer.py:124-174 | A clear edge keeps the whole of the reader's side, the order of the stream and an honest `last` included. |
| `UsbAnalyzer.WordsConserved` | cynthion/python/src/gateware/analyzer/analyzer.py:124-174 | Words passed on, the one on offer and those counted in the ring are exactly the committed words. |
| `UsbAnalyzer.StartCycle` | cynthion/python/src/gateware/analyzer/analyzer.py:203-214 | Starting a packet reserves its two header words after the last committed word and takes its timestamp. |
| `UsbAnalyzer.ByteCycle` | cynthion/python/src/gateware/analyzer/analyzer.py:230-249 | A received byte joins the packet in its own lane and counts a new word every second byte, or the packet is lost to overrun when the ring is full. |
| `UsbAnalyzer.HeaderCycle` | cynthion/python/src/gateware/analyzer/analyzer.py:251-256 | At the end of a packet, length and timestamp are patched in front of the bytes and the whole packet becomes visible at once, extending the parse by exactly that packet. |
| `UsbAnalyzer.EventCycle` | cynthion/python/src/gateware/analyzer/analyzer.py:215-226 | With room for it, whatever the reader fetches meanwhile, a rollover event is written and committed as two words that parse as that event. |
| `UsbAnalyzer.DiscardCycle` | cynthion/python/src/gateware/analyzer/analyzer.py:157-167 | A discarding cycle empties the ring and the count and starts a fresh session. |
| `UsbAnalyzer.IdleCycle` | cynthion/python/src/gateware/analyzer/analyzer.py:176-178 | A cycle that writes nothing keeps the invariant, the reader and the clock still advancing. |
| `UsbAnalyzer.HeaderCompletes` | cynthion/python/src/gateware/analyzer/analyzer.py:292-317 | Filling the reserved words with length and time completes a packet image whose bytes are untouched, even when it wraps round the ring. |
| `UsbAnalyzer.ByteJoins` | cynthion/python/src/gateware/analyzer/analyzer.py:281-287 | Writing one byte lane leaves every earlier byte of the packet in place. |
| `UsbAnalyzer.BurstHandOff` | cynthion/python/src/gateware/analyzer/analyzer.py:126-141 | While not discarding, a word taken with `last` low is followed by a valid word at the very next sync edge, at both edges of a cycle. |
| `UsbAnalyzer.LastExact` | cynthion/python/src/gateware/analyzer/analyzer.py:131-134 | A word is offered as the last one if and only if no other was committed and unread when it was fetched. |
| `UsbAnalyzer.OverrunIff` | cynthion/python/src/gateware/analyzer/analyzer.py:246-249 | An overrun is entered exactly when a byte brings the words still unread after its first edge, with the packet's header and words, to one less than the ring holds. |
| `UsbAnalyzer.OverrunStaysHidden` | cynthion/python/src/gateware/analyzer/analyzer.py:246-272 | From an overrun on, nothing more is committed until a new session has emptied the ring. |
| `UsbAnalyzer.NoOverrunIsIdeal` | cynthion/python/src/gateware/analyzer/analyzer.py:192-272 | Without an overrun the recorded session is the ideal capture of the pins alone. |
| `UsbAnalyzer.EventNeedsRoom` | cynthion/python/src/gateware/analyzer/analyzer.py:169-226 | A rollover event keeps everything the invariant says if and only if the committed count, less the words fetched in the cycle, plus two stays below the depth. |
| `UsbAnalyzer.PacketNeedsRoom` | cynthion/python/src/gateware/analyzer/analyzer.py:169-174 | However full the ring became, a packet's commit keeps the count true if and only if the count, less the words fetched in the cycle, plus the pending words stays below the depth. |
| `UsbAnalyzer.CycleCountsIff` | cynthion/python/src/gateware/analyzer/analyzer.py:147-174 | Any cycle at all keeps the count of committed unread words true if and only if what it commits finds room. |
| `UsbAnalyzer.RunCountsIff` | cynthion/python/src/gateware/analyzer/analyzer.py:147-174 | Over every run, with no hypothesis on space: the count alone stays true throughout if and only if every commit finds room. |
| `UsbAnalyzer.RunSafeIff` | cynthion/python/src/gateware/analyzer/analyzer.py:147-331 | Over every run, with no hypothesis at all: no unread word is overwritten and the count stays true at every sync edge if and only if every edge is clear. |
| `UsbAnalyzer.ClearRunIsHonest` | cynthion/python/src/gateware/analyzer/analyzer.py:124-174 | In every run of clear edges what the reader is given begins the committed words. |
| `UsbAnalyzer.ByteClearIff` | cynthion/python/src/gateware/analyzer/analyzer.py:240-249 | A byte's edge is clear if and only if the packet has not caught up with the words unread after it, or the byte equals the one it overwrites. |
| `UsbAnalyzer.SpaceSuffices` | cynthion/python/src/gateware/analyzer/analyzer.py:203-249 | If each packet starts with at most d - 4 committed words, each rollover event with at most d - 3, and no packet exceeds 4090 bytes, then every edge of the run is clear: the overrun test does the rest. |
| `AnalyzerRuns.LostPacketRun` | cynthion/python/src/gateware/analyzer/analyzer.py:246-249 | A run from power-on in a four-word ring with a stalled reader: an empty packet and one of a single byte, no overrun, five words committed, one fetched, and a count of zero. |
| `AnalyzerRuns.LostEventRun` | cynthion/python/src/gateware/analyzer/analyzer.py:215-226 | A run from power-on in the same ring: two empty packets and an idle bus until the counter wraps, no overrun, five words unread and a count of one. |
| `AnalyzerRuns.CorruptedRun` | cynthion/python/src/gateware/analyzer/analyzer.py:203-249 | A run from power-on in an eight-word ring: three empty packets with a stalled reader, a fourth of three bytes, a reader that drains the ring before it ends. No overrun, every commit finds room, the count is true, and for the first packet's timestamp the host reads the fourth packet's third byte. |
| `UsbAnalyzer.OverlongPacketWraps` | cynthion/python/src/gateware/analyzer/analyzer.py:151 | A packet of 4091 bytes wraps the 11-bit pending count; 4090 is the exact limit, above the 1027 of line 65. |
| `UsbAnalyzer.Analyzer.OnUsbCycle` | cynthion/python/src/gateware/analyzer/analyzer.py:124-331 | Updating the registers and memory in place for one usb cycle equals the cycle function. |
| `UsbAnalyzer.Analyzer.OnSyncEdge` | cynthion/python/src/gateware/analyzer/analyzer.py:124-174 | The same for one sync edge. |
| `UsbAnalyzer.Analyzer.NextUsb` | cynthion/python/src/gateware/analyzer/analyzer.py:177-272 | The capture state machine computes the next usb registers. |
| `UsbAnalyzer.Analyzer.StepWriteMachine` | cynthion/python/src/gateware/analyzer/analyzer.py:278-331 | The buffer-write state machine makes at most one memory write, at the specified address and lanes. |
| `UsbAnalyzer.Analyzer.StepReader` | cynthion/python/src/gateware/analyzer/analyzer.py:124-174 | The output stream and the committed-word count. |
| `UsbAnalyzer.Analyzer.StepPending` | cynthion/python/src/gateware/analyzer/analyzer.py:151-290 | The pending count, the last applicable assignment winning. |
| `CaptureSpec.ParseConcat` | cynthion/python/src/gateware/analyzer/analyzer.py:57-62 | Parsing is compositional: a stream that parses whole can be followed by another. |
| `CaptureSpec.ParseAppend` | cynthion/python/src/gateware/analyzer/analyzer.py:296-327 | One item's words extend the parse by that item; the 0xFF marker tells events from packets. |
| `CaptureSpec.StepKeepsClock` | cynthion/python/src/gateware/analyzer/analyzer.py:177-225 | Every cycle keeps the clock invariant: each item's timestamp and the items before it place it in the session's cycles, up to wraps inside packets. |
| `CaptureSpec.GapBetweenPackets` | cynthion/python/src/gateware/analyzer/analyzer.py:177-225 | Time conservation between consecutive packets, if and only if the counter did not wrap inside a packet in between. |
| `CaptureSpec.GapBeforeFirstPacket` | cynthion/python/src/gateware/analyzer/analyzer.py:193-226 | The same from the start of the session to its first packet. |
| `AsyncFifo.StepKeepsInv` | cynthion/python/src/gateware/analyzer/fifo.py:214-299 | Every legal edge, of either clock or both, with clean resets, keeps: the counter chain, registers mirroring unbounded counters, unread words intact, delivered words faithful, head word fresh. |
| `AsyncFifo.StepKeepsCore` | cynthion/python/src/gateware/analyzer/fifo.py:214-299 | The counter chain, the mirrored registers and the unread words survive every legal edge, clean resets or not. |
| `AsyncFifo.DeliversInOrder` | cynthion/python/src/gateware/analyzer/fifo.py:214-286 | Without reset, for every interleaving of edges and every synchroniser outcome: delivered words are the first accepted ones, the ready head is the oldest unread, both levels stay in 0..depth. |
| `AsyncFifo.DeliversAcrossResets` | cynthion/python/src/gateware/analyzer/fifo.py:288-299 | With clean resets anywhere, each delivered word is the accepted word of its own index. |
| `AsyncFifo.StepKeepsOrderly` | cynthion/python/src/gateware/analyzer/fifo.py:275-299 | Every legal edge keeps words from a given one on orderly; a reset edge, even an unclean one, moves that point to the words accepted so far. |
| `AsyncFifo.DeliversSinceLastReset` | cynthion/python/src/gateware/analyzer/fifo.py:214-299 | In every legal run from power-on, however unclean its resets, the words accepted since the last one are delivered in order, none is skipped, and the next one offered is right. |
| `AsyncFifo.ResetDiscardsCrossed` | cynthion/python/src/gateware/analyzer/fifo.py:288-299 | A reset edge discards exactly the words whose pointer had already crossed, and keeps the rest. |
| `AsyncFifo.ResetEmptiesIff` | cynthion/python/src/gateware/analyzer/fifo.py:292-299 | A reset leaves nothing behind if and only if the reader already saw the writer's pointer and nothing is written at that edge. |
| `AsyncFifo.ResetHeadExact` | cynthion/python/src/gateware/analyzer/fifo.py:281-299 | Exactly when the word shown after a reset is right: the produce pointer seen does not advance at the reset edge, or the queue was empty, or the two words happen to be equal. |
| `AsyncFifo.UncleanResetExample` | cynthion/python/src/gateware/analyzer/fifo.py:282-299 | A concrete run from power-on in which an unclean reset makes the reader take a wrong word. |
| `AsyncFifo.FullIff` | cynthion/python/src/gateware/analyzer/fifo.py:262-264 | The writer's full flag is exact: all slots it knows of are taken. |
| `AsyncFifo.EmptyIff` | cynthion/python/src/gateware/analyzer/fifo.py:265 | The reader's empty flag is exact: it has consumed all it has seen. |
| `AsyncFifo.LevelBounds` | cynthion/python/src/gateware/analyzer/fifo.py:268-269 | r_level <= occupancy <= produce_w - consume_w_bin <= depth, in modular arithmetic. |
| `AsyncFifo.WriteLevelExact` | cynthion/python/src/gateware/analyzer/fifo.py:247-268 | The writer's level register is what was accepted less what the writer knew to be consumed, at its last edge. |
| `AsyncFifo.AsyncFifoReadReset.OnWriteEdge` | cynthion/python/src/gateware/analyzer/fifo.py:217-279 | Updating the write registers and storage in place equals the write edge. |
| `AsyncFifo.AsyncFifoReadReset.OnReadEdge` | cynthion/python/src/gateware/analyzer/fifo.py:223-299 | The same for a read edge. |
| `AsyncFifo.AsyncFifoReadReset.OnBothEdges` | cynthion/python/src/gateware/analyzer/fifo.py:217-299 | The same for coinciding edges. |
| `GrayCode.DecodeEncode` | cynthion/python/src/gateware/analyzer/fifo.py:231-257 | For every width, decoding undoes encoding. |
| `GrayCode.EncodeDecode` | cynthion/python/src/gateware/analyzer/fifo.py:231-257 | And encoding undoes decoding. |
| `GrayCode.OneBitFlips` | cynthion/python/src/gateware/analyzer/fifo.py:229-245 | Successive codes, wrap included, differ in exactly one bit. |
| `GrayCode.SampledCodeIsOldOrNew` | cynthion/python/src/gateware/analyzer/fifo.py:233-243 | Any bit-by-bit mix of two successive codes is one of the two. |
| `GrayCode.FullExact` | cynthion/python/src/gateware/analyzer/fifo.py:261-264 | The three-part comparison of codes holds exactly when the counters differ by half their range. |
| `GrayCode.GrayInjective` | cynthion/python/src/gateware/analyzer/fifo.py:265 | Codes are equal exactly when the counters are. |
| `Stream16to8.ConvertsExactly` | cynthion/python/src/gateware/analyzer/fifo.py:147-177 | Under every valid/ready schedule, bytes passed on and bytes held are the split of the words taken, in the configured order. |
| `Stream16to8.StepKeepsInv` | cynthion/python/src/gateware/analyzer/fifo.py:156-175 | Every edge keeps that equation. |
| `Stream16to8.StableAndPrompt` | cynthion/python/src/gateware/analyzer/fifo.py:156-175 | A stalled byte stays on offer unchanged; with a ready reader a word is taken within two edges. |
| `Stream16to8.Converter.OnEdge` | cynthion/python/src/gateware/analyzer/fifo.py:153-175 | Updating the shift register in place equals the step. |
| `HyperRamFifo.StepKeepsInv` | cynthion/python/src/gateware/analyzer/fifo.py:71-136 | Every legal cycle keeps: count is writes minus reads within 0..depth, addresses agree with it, unread words intact, bursts within bounds. |
| `HyperRamFifo.StrobesAreSafe` | cynthion/python/src/gateware/analyzer/fifo.py:98-131 | No write strobe meets an invalid input or a full memory, no read strobe an empty memory or a full output FIFO. |
| `HyperRamFifo.BurstGoesOnIff` | cynthion/python/src/gateware/analyzer/fifo.py:98-105 | A burst goes on after a strobe exactly as long as it can: a write while memory has room and the source more words, a read while memory has words and the output FIFO room. |
| `HyperRamFifo.TransferStartsIff` | cynthion/python/src/gateware/analyzer/fifo.py:110-131 | On an idle controller a write starts whenever there is a word and room for it, and otherwise, for a power-of-two output FIFO, a read whenever there are words and that FIFO is not full. |
| `HyperRamFifo.FifoInOrder` | cynthion/python/src/gateware/analyzer/fifo.py:58-136 | In every legal run, words handed on, in the output FIFO and in memory are the words taken in, in order. |
| `HyperRamFifo.WordsConserved` | cynthion/python/src/gateware/analyzer/fifo.py:71-91 | The same equation at any state satisfying the invariant. |
| `HyperRamFifo.PacketFifo.OnEdge` | cynthion/python/src/gateware/analyzer/fifo.py:71-136 | Updating the registers in place equals the step. |
| `UsbDriver.Usb.WriteWithPacketSize` | firmware/lunasoc-hal/src/usb.rs:467-559 | Against every behaviour of the interrupt: without timeout exactly the packets of the payload are sent; a timeout takes at least DEFAULT_TIMEOUT + 1 polls, and then a whole number of full packets was sent, a prefix of that list, and the flag is clear; if nothing is outstanding at the call, no byte enters the FIFO while a packet is outstanding, bytes left in the FIFO make it time out with nothing written, and a payload of less than a packet cannot time out on an empty one; the FIFO is left empty; polls are bounded by packets times DEFAULT_TIMEOUT. |
| `UsbDriver.Usb.PushAll` | firmware/lunasoc-hal/src/usb.rs:489-522 | The pushing loop sends each packet as it fills and goes on once an acknowledgement is seen, so no more packets are outstanding than at the start; data run into an outstanding packet if and only if one was outstanding at the start and there are data. |
| `UsbDriver.Usb.AwaitEmpty` | firmware/lunasoc-hal/src/usb.rs:473-488 | Waits for leftovers to go, or after exactly DEFAULT_TIMEOUT + 2 polls discards them and gives up; with nothing outstanding it succeeds if and only if there are none. |
| `UsbDriver.Usb.AwaitSent` | firmware/lunasoc-hal/src/usb.rs:504-521 | Waits for the flag: success means some packet was acknowledged meanwhile, and it gives up after exactly DEFAULT_TIMEOUT + 1 polls, never earlier. |
| `UsbDriver.WaitEndsCleanIff` | firmware/moondancer/src/util.rs:73-84 | The first acknowledgement ends a wait, whosever packet it is for; nothing is then outstanding if and only if nothing was before the packet was sent. |
| `UsbDriver.Usb.Environment` | firmware/moondancer/src/util.rs:73-84 | Between two steps of the writer the host reads the packet out, or an acknowledgement clears the flag of the endpoint that the register names by then. |
| `UsbDriver.Usb.Write` | firmware/lunasoc-hal/src/usb.rs:451-457 | A payload of unannounced length is sent with a final short or empty packet; on timeout a whole number of full packets; when it must time out and when it cannot, if nothing is outstanding; polls stay within the bound. |
| `UsbDriver.Usb.WriteRequested` | firmware/lunasoc-hal/src/usb.rs:459-465 | An answer within the requested length is rebuilt by the host with no packet left over; on timeout a whole number of full packets was sent and the flag is clear; when it must time out and when it cannot, if nothing is outstanding; polls stay within the bound. |
| `UsbDriver.SentIsPrefix` | firmware/lunasoc-hal/src/usb.rs:504-521 | What a write has sent, timed out or not, begins what it stands for. |
| `UsbDriver.Usb.Read` | firmware/lunasoc-hal/src/usb.rs:418-447 | Fills the buffer from the FIFO, drains the rest, reports the packet's full length. |
| `UsbDriver.Usb.EpOutPrimeReceive` | firmware/lunasoc-hal/src/usb.rs:398-416 | Discards unread data, primes the endpoint, enables reception. |
| `UsbDriver.MaxPacketSizes` | firmware/smolusb/src/lib.rs:23-34 | The largest packets of the control endpoint and of the others at each speed (sections 5.5.3 and 5.8.3 of USB 2.0). |
| `UsbDriver.Usb.SetAddress` | firmware/lunasoc-hal/src/usb.rs:246-253 | The device answers to the seven-bit address from then on. |
| `Packetisation.HostReadsChop` | firmware/lunasoc-hal/src/usb.rs:524-557 | Exactly what a host makes of the packets (section 5.5.3 of USB 2.0), with or without the final one: always the payload; an empty packet left over, or an endless wait, just in the one wrong case each. |
| `Packetisation.HostRebuildsIff` | firmware/lunasoc-hal/src/usb.rs:539-557 | For every payload within what the host wants, the transfer is rebuilt if and only if, when the payload fills its last packet, the writer was told it is the whole request exactly when it is. |
| `Packetisation.UncutAnswerIff` | firmware/smolusb/src/device.rs:124-130 | An answer sent without being cut, as the Microsoft string is, gives the host what it asked for and leaves no packet over if and only if it is no longer than that. |
| `Packetisation.HostReadConserves` | firmware/lunasoc-hal/src/usb.rs:489-557 | Whatever the packets, what a host has read and what it left unread are all of them, in order. |
| `Packetisation.PacketSizes` | firmware/lunasoc-hal/src/usb.rs:489-522 | All packets but the last are full, none is longer, together they are the payload. |
| `Packetisation.EndpointRebuildsIff` | firmware/moondancer/src/gcp/moondancer.rs:719-776 | Exactly when the endpoint write command's packets rebuild the payload: only a payload of several full packets that ends where the host stops, or one of one full packet that does not, goes wrong. |
| `Packetisation.PiecesAreKept` | firmware/moondancer/src/gcp/moondancer.rs:764-776 | Pieces of at most one packet go out as they are: whoever splits the payload decides its packets. |
| `Control.Reassembles` | firmware/smolusb/src/control.rs:267-271 | For every split of host data into non-empty packets within the buffer: the setup packet is handed back once, at the completion of the one status packet, with the data in order, having primed once per packet. |
| `Control.ReceivesAll` | firmware/smolusb/src/control.rs:327-369 | The data stage alone: what the buffer, the driver calls and the state become. |
| `Control.FinishesIff` | firmware/smolusb/src/control.rs:344-350 | The transfer ends if and only if the announced length fits the buffer: packets that do not fit are dropped, so a longer one never finishes. |
| `Control.DataFits` | firmware/smolusb/src/control.rs:327-369 | In every run of events of any size, received data stay within the buffer. |
| `Control.GetDescriptorDelivers` | firmware/smolusb/src/control.rs:177-182 | End to end: the host reads exactly the first min(wLength, n) bytes of the descriptor, and after the completions and the status packet the machine is idle, OUT primed once, however completions fall around the status packet. |
| `Control.SendsAndReturns` | firmware/smolusb/src/control.rs:288-312 | The data stage and status of any answer return the machine to idle with one priming. |
| `Control.SomePacketIsSent` | firmware/smolusb/src/control.rs:177-182 | The answer to a request for at least one byte has at least one packet, so a completion does arrive. |
| `Control.AddressChangesIff` | firmware/smolusb/src/control.rs:314-319 | The address changes at an event if and only if it completes the status packet of an accepted SetAddress request, to the address requested (section 9.4.6 of USB 2.0). |
| `Control.AddressFollowsStatus` | firmware/smolusb/src/control.rs:183-187 | In every run of events, every change of address directly follows an empty status packet. |
| `Control.DroppedIff` | firmware/smolusb/src/control.rs:97-100 | A SETUP packet is dropped, with neither a driver call nor an answer, if and only if the machine is neither idle nor stalled, and then makes it idle. |
| `Control.HandedBackUnreadyIff` | firmware/smolusb/src/control.rs:177-284 | Of the requests handed back, exactly those for descriptors leave the machine unready. |
| `Control.HandedBackLosesNextIff` | firmware/smolusb/src/control.rs:177-182 | A request that is handed back makes the device lose the next SETUP packet, whatever it is, if and only if it asks for a descriptor the device does not offer. |
| `Control.SetConfigurationIff` | firmware/smolusb/src/control.rs:188-202 | SetConfiguration is acknowledged with one empty packet if and only if it names configuration 0 or 1, which is then stored; otherwise it is stalled and none is. |
| `Control.FeaturesExact` | firmware/smolusb/src/control.rs:217-264 | ClearFeature and SetFeature are acknowledged exactly for the remote wake-up of the device, which they clear or set, and ClearFeature for the halt of an endpoint, which is cleared on that endpoint and direction; anything else is stalled and changes nothing. |
| `Control.ReportsExact` | firmware/smolusb/src/control.rs:203-215 | GetConfiguration and GetStatus answer with the stored configuration, 0 if none, and with the self-powered and wake-up bits. |
| `Control.ReportsLastSet` | firmware/smolusb/src/control.rs:188-264 | After every run from the start: GetConfiguration answers the configuration last set, 0 if that was refused, and GetStatus the wake-up feature as last set or cleared; a bus reset changes neither. |
| `Control.SetAddressAcknowledged` | firmware/smolusb/src/control.rs:183-187 | SetAddress is acknowledged with one empty packet and its address kept for the completion. |
| `Control.MicrosoftExact` | firmware/smolusb/src/control.rs:124-174 | The Microsoft request is answered with the beginning of the descriptor its recipient and index name, and stalled for any other. |
| `Control.OthersExact` | firmware/smolusb/src/control.rs:266-284 | Of the requests not listed, by the bytes of the SETUP packet, exactly those that bring data have them received into an empty buffer, and the others are handed back. |
| `Control.PanicsIff` | firmware/smolusb/src/control.rs:87-411 | An event panics the machine exactly if it asks for the string after the last one, or brings a packet of more than 512 bytes that fits the buffer. |
| `Control.HostDataExact` | firmware/smolusb/src/control.rs:334-367 | A packet of host data is dropped, and another asked for, if and only if it does not fit; an empty one ends the transfer. |
| `Control.StatusCompletes` | firmware/smolusb/src/control.rs:314-387 | The completion of an acknowledged request's status packet makes the machine idle, and hands back the request that brought data. |
| `Control.ResetListens` | firmware/smolusb/src/control.rs:91-95 | A bus reset, or an event of another endpoint, makes the machine idle and changes nothing else. |
| `Control.UnexpectedListens` | firmware/smolusb/src/control.rs:389-409 | So does any other event that nothing waits for. |
| `Control.EnumerationDelivers` | firmware/smolusb/src/control.rs:177-182 | End to end, with a length that covers them: from what the host has after the transfer it reads the device descriptor, or the whole configuration. |
| `Control.ControlEndpoint.DispatchEvent` | firmware/smolusb/src/control.rs:87-411 | Updating state, configuration and receive buffer in place equals the step, for every state and event. |
| `Control.ControlEndpoint.OnHostData` | firmware/smolusb/src/control.rs:327-369 | Copying a packet behind the data already received equals the host-data step. |
| `Control.ControlEndpoint.OnSetup` | firmware/smolusb/src/control.rs:97-285 | The request dispatch, including which requests are handed back. |
| `Control.ControlEndpoint.Data` | firmware/smolusb/src/control.rs:49-51 | The filled part of the receive buffer. |
| `ControlOverUsb.DescriptorOnTheWire` | firmware/smolusb/src/device.rs:46-170 | The packets a whole descriptor request puts on the wire are its data stage and nothing else, and the host rebuilds it. |
| `ControlOverUsb.Make` | firmware/smolusb/src/control.rs:87-411 | A driver call: a priming clears the OUT FIFO, selects, primes and enables; an address is set; a write sends its packets, or after at least DEFAULT_TIMEOUT + 1 polls a beginning of them; nothing else changes on the OUT side. |
| `ControlOverUsb.Handle` | firmware/smolusb/src/control.rs:87-411 | Handling an event on the driver, reading the packet that came with it in just the states that do: the machine and outcome are the step's; the endpoints primed, reception and the address are what the step's calls leave; what is sent is always a beginning of what they stand for, and all of it without a timeout, which takes at least DEFAULT_TIMEOUT + 1 polls. |
| `ControlOverUsb.HandleAll` | firmware/smolusb/src/control.rs:87-411 | Handling a whole sequence of events, until one panics: machine, outcomes, endpoints primed and address are the run's, and without a timeout exactly the packets of the run's calls are sent. |
| `ControlOverUsb.ServeDescriptor` | firmware/smolusb/src/control.rs:177-182 | A whole descriptor request run on the driver: without a timeout exactly the data stage is sent; the host rebuilds the beginning of the descriptor, the endpoint ends idle, primed for the status packet, and the address is as before. |
| `ControlOverUsb.PrimedIff` | firmware/lunasoc-hal/src/usb.rs:398-416 | Exactly the endpoints that calls prime are primed after them, and reception is enabled once one is. |
| `ControlOverUsb.AddressIsLast` | firmware/lunasoc-hal/src/usb.rs:246-253 | The address after calls is the one they last set. |
| `ControlOverUsb.WritesOwnEndpointIff` | firmware/smolusb/src/control.rs:210-215 | Every write goes to the machine's own endpoint, except, if that is not 0, the answer to a status request. |
| `Device.OffersDescriptor` | firmware/smolusb/src/device.rs:56-160 | What is sent for a requested length is exactly the beginning of the descriptor the device has, as long as asked for or shorter if it ends, or the whole Microsoft string. |
| `Device.HostReadsDevice` | firmware/smolusb/src/device.rs:64-71 | Value 0x0100: what is sent is the beginning of 18 bytes from which a host reads the device descriptor. |
| `Device.HostReadsConfiguration` | firmware/smolusb/src/device.rs:72-78 | Type 2: of bytes from which a host walking lengths and types reads the whole configuration. |
| `Device.HostReadsOtherSpeed` | firmware/smolusb/src/device.rs:98-104 | Type 7: the same for the configuration at the other speed, if there is one. |
| `Device.HostReadsQualifier` | firmware/smolusb/src/device.rs:79-86 | Type 6 at high speed: of ten bytes from which it reads the qualifier, if there is one. |
| `Device.HostReadsString` | firmware/smolusb/src/device.rs:116-160 | Type 3: of bytes that decode to the languages for string 0, and by UTF-16 to the n-th string for string n. |
| `Device.AbsentAnsweredEmptyIff` | firmware/smolusb/src/device.rs:86-114 | An empty packet is the answer if and only if a qualifier or other-speed configuration is asked for that the device does not have at its speed. |
| `Device.HandedBackCalls` | firmware/smolusb/src/device.rs:124-167 | A descriptor request that is handed back makes no call, but for the missing Microsoft string, which is stalled. |
| `Device.AnnouncedLengths` | firmware/smolusb/src/device.rs:32-42 | Setting the total lengths changes nothing else, and each configuration's first nine bytes then announce its length exactly if that fits 16 bits. |
| `Device.HandedBackIff` | firmware/smolusb/src/device.rs:124-167 | A descriptor request is handed back if and only if it names another kind or device number, a string beyond the one after the last, or a Microsoft string that is not there. |
| `Device.PanicsExactly` | firmware/smolusb/src/device.rs:138-160 | A descriptor request panics exactly when it asks for the string just after the last one. |
| `Device.SetupRoundTrip` | firmware/smolusb/src/setup.rs:18-33 | A setup packet survives its eight bytes. |
| `Descriptors.ConfigurationRoundTrip` | firmware/smolusb/src/descriptor.rs:257-290 | A host walking the bytes by length and type recovers the same tree of interfaces, class-specific descriptors and endpoints, header fields included (sections 9.6.3, 9.6.5, 9.6.6 of USB 2.0). |
| `Descriptors.DeviceRoundTrip` | firmware/smolusb/src/descriptor.rs:83-122 | A host reading the fields at the offsets of table 9-8 of USB 2.0 recovers the device descriptor. |
| `Descriptors.QualifierRoundTrip` | firmware/smolusb/src/descriptor.rs:136-165 | The same for the qualifier, by table 9-9. |
| `Descriptors.ConstructorsKeep` | firmware/smolusb/src/descriptor.rs:219-357 | The constructors make the length byte true and keep everything else, so that what they build from readable interfaces can be read back. |
| `Descriptors.CountsExact` | firmware/smolusb/src/descriptor.rs:219-228 | bNumInterfaces and bNumEndpoints are true exactly for fewer than 256 of each. |
| `Descriptors.TotalLengthExact` | firmware/smolusb/src/descriptor.rs:230-245 | The serialised length is 9 plus 9, 5 and 7 per interface, class-specific descriptor and endpoint; wTotalLength, as a host reads it, equals it exactly when it fits 16 bits; nothing else changes. |
| `Descriptors.ConfigurationDescriptor.UpdateTotalLength` | firmware/smolusb/src/descriptor.rs:230-245 | The in-place update equals the function and returns the length. |
| `Descriptors.StringLengthExact` | firmware/smolusb/src/descriptor.rs:513-524 | For every text, bLength of its string descriptor is true if and only if it has fewer than 127 UTF-16 units and its UTF-8 bytes exceed them by a multiple of 128. |
| `Descriptors.ShortStringLengthExact` | firmware/smolusb/src/descriptor.rs:513-524 | For a text whose counted length fits a byte, bLength is true exactly for ASCII. |
| `Descriptors.AsciiIsNotTheCondition` | firmware/smolusb/src/descriptor.rs:513-524 | bLength is wrong for 127 letters A and right for 64 ideographs. |
| `Descriptors.LanguageLengthExact` | firmware/smolusb/src/descriptor.rs:458-473 | The language list's bLength is true exactly for fewer than 127 languages. |
| `Descriptors.Utf16RoundTrip` | firmware/smolusb/src/descriptor.rs:530-540 | Decoding the UTF-16 units of a text, surrogates included, gives the text. |
| `Descriptors.StringsRoundTrip` | firmware/smolusb/src/descriptor.rs:455-540 | After the two-byte header a host finds the languages of string 0 and, by UTF-16, the text of any other. |
| `Descriptors.Utf8LengthExact` | firmware/smolusb/src/descriptor.rs:513-524 | The byte count the length is computed from is that of UTF-8. |
| `Descriptors.Utf16ByteIterator.Next` | firmware/smolusb/src/descriptor.rs:562-585 | Each call yields the next byte of the remaining UTF-16 units, low byte first. |
| `Moondancer.PerEndpointFifo` | firmware/moondancer/src/gcp/moondancer.rs:145-177 | In every run of events and commands: for each endpoint, packets returned then packets buffered are the packets that arrived while there was room, in order and byte for byte up to 512 bytes, longer ones as 512 zeros, though all share four slots. |
| `Moondancer.ReadReturnsOldest` | firmware/moondancer/src/gcp/moondancer.rs:504-536 | After every run, a read returns the endpoint's oldest packet not yet returned, or nothing. |
| `Moondancer.ReadsAcrossDisconnectIff` | firmware/moondancer/src/gcp/moondancer.rs:274-296 | After any run with a disconnect in it, a read hands over a packet accepted before the disconnect if and only if fewer have been returned in all than had been accepted by then; it is then the next of those. |
| `Moondancer.StaleAfterDisconnectIff` | firmware/moondancer/src/gcp/moondancer.rs:286-288 | Right after a disconnect such packets are there if and only if they were buffered before it. |
| `Moondancer.StalePacketExample` | firmware/moondancer/src/gcp/moondancer.rs:286-288 | One packet, a disconnect, a read: the host gets the packet of the connection it ended. |
| `Moondancer.EventsInOrder` | firmware/moondancer/src/gcp/moondancer.rs:82-192 | In every run: events handed to the host, as it decodes them from the bytes, are the first of those kept; setup packets read are the first of those queued. |
| `Moondancer.SetupsArePaired` | firmware/moondancer/src/gcp/moondancer.rs:93-132 | For a host reading once per setup event: queued setup packets are exactly unread plus still-queued plus lost events; while none is lost, the k-th event belongs to the k-th packet. |
| `Moondancer.PoliteReadReturns` | firmware/moondancer/src/gcp/moondancer.rs:313-326 | Such a host's read always returns, with the oldest unread setup packet. |
| `Moondancer.PoliteStuckIff` | firmware/moondancer/src/gcp/moondancer.rs:119-130 | With such a host the firmware halts if and only if a setup packet arrives with seven unread. |
| `Moondancer.PendingIff` | firmware/moondancer/src/gcp/moondancer.rs:107-116 | After every run an address is pending if and only if its request has not been superseded by a completion, a reset, a disconnect or another request. |
| `Moondancer.AddressSetIff` | firmware/moondancer/src/gcp/moondancer.rs:134-143 | After every run an event sets the address if and only if it is a completion with that address pending. |
| `Moondancer.AcknowledgesIff` | firmware/moondancer/src/gcp/moondancer.rs:93-117 | An event sends an empty packet, on its own endpoint and nothing else, if and only if it brings a SetAddress request; apart from that only addresses are set. |
| `Moondancer.OwnStatusSetsAddressIff` | firmware/moondancer/src/gcp/moondancer.rs:134-143 | A request's own status completion sets its address if and only if no other endpoint completed a packet in between: the handler does not compare endpoints. |
| `Moondancer.NoticesRoundTrip` | firmware/smolusb/src/event.rs:71-98 | The host recovers the events from their two bytes each. |
| `Moondancer.Firmware.DispatchEvent` | firmware/moondancer/src/gcp/moondancer.rs:82-192 | Updating the queues in place equals the step, for every event. |
| `Moondancer.Firmware.StorePacket` | firmware/moondancer/src/gcp/moondancer.rs:145-174 | A packet is kept whole if it fits, as 512 zeros if it is longer, and dropped if the buffer is full. |
| `Moondancer.Firmware.ReadEndpointVerb` | firmware/moondancer/src/gcp/moondancer.rs:504-536 | The search and removal equal the step; a malformed argument is refused. |
| `Moondancer.Firmware.ReadControlVerb` | firmware/moondancer/src/gcp/moondancer.rs:313-326 | The read equals the step; an empty queue never returns. |
| `Moondancer.Firmware.GetInterruptEventsVerb` | firmware/moondancer/src/gcp/moondancer.rs:843-860 | All queued events are returned as bytes, and fit the response buffer. |
| `Moondancer.Firmware.DisconnectVerb` | firmware/moondancer/src/gcp/moondancer.rs:275-296 | Both queues, the pending address and the packet sizes are cleared; buffered packets are not. |
| `Moondancer.Firmware.WriteEndpointVerb` | firmware/moondancer/src/gcp/moondancer.rs:677-806 | Sends exactly the payload's packets or a prefix of them; when a wait is asked for and succeeds no more packets are outstanding than before the call; polls are bounded, and a timeout takes at least DEFAULT_TIMEOUT + 1; out-of-range endpoints and unconfigured sizes panic, and on the latter an empty payload with a wait always times out if nothing is outstanding. |
| `Moondancer.Firmware.WriteControlEndpointVerb` | firmware/moondancer/src/gcp/moondancer.rs:608-674 | Sends as much of the payload as was asked for, always a beginning of its packets, which the host rebuilds; a wait that expired inside is reported as success: with bytes left in the FIFO and nothing outstanding always, and nothing is sent; with an empty FIFO and an answer of less than a packet never; a final wait that succeeds leaves no more outstanding than before. |

## Left out

- PSRAM timing, ULPI and UTMI translation, LUNA endpoints and the internals of the synchronous output FIFO are not part of this model; each is replaced by the assumption stated above.
- The analyzer's BABBLE state is left out: no transition leads to it.
- Metastability during a reset's multi-bit pointer jump is not modelled: that sampling is atomic.
- UsbAnalyzer.CaptureRoundTrip: packets that the ring cannot hold beside their header, or of more than 4090 bytes, are outside it.
- UsbAnalyzer.NoOverrunIsIdeal: says nothing of the cycle-by-cycle bytes of a packet that overran; such a packet is shown never to become visible.
- CapturePipeline.HostReceivesSession: bytes of an earlier session that had not crossed when the new one began may come out first; only the new session's bytes are spoken of.
- UsbDriver.Usb.WriteWithPacketSize: with packets outstanding at the call it says how many may still be so, not when each is acknowledged.
- UsbDriver.Usb.WriteRequested: a timeout's effect on the host is not modelled beyond the prefix that was sent.
- Control.GetDescriptorDelivers: covers device, qualifier, configuration, other-speed, language and in-range string descriptors; the Microsoft string, which the source does not cut (UncutAnswerIff), is outside it, as are absent descriptors, answered with an empty packet.
- Control.DataFits: a read of more than 512 bytes that fits the buffer panics and ends the run; the property holds up to there.
- ControlOverUsb.Handle: stalls and halt clearing are calls without a register model; driver calls follow the step instead of interleaving with it, which a single control endpoint cannot tell apart.
- ControlOverUsb.HandleAll: the hardware is taken to put a packet's bytes into the OUT FIFO just before the event that reports it.
- CaptureDrain.KeepsMovingDrains: nothing is promised of a PSRAM or a host that stops, nor of bytes captured meanwhile.
- Moondancer.SetupsArePaired: runs contain no raw ReceiveControl event, which the interrupt handlers never raise; the test verbs are excluded.
- Moondancer.Firmware.WriteEndpointVerb: argument parsing is left out; the payload is given. The same holds for WriteControlEndpointVerb.
- Moondancer's address, stall, halt-clearing, priming and endpoint configuration verbs are left out: they set driver registers that this model does not have.
- Descriptor field defaults, enumeration conversions, the setup-packet bit fields beyond those used, logging, the GCP verb tables and the Python user interface are lookups or plumbing.
- AsyncFifo depth 0 and 1: the first is a stub, the second indexes a bit that does not exist.
