# Verified model of the XMM7360 driver and its tools

This Dafny project models the data path of the XMM7360 LTE modem driver and of the programs around it, and proves what
they promise: that the descriptor rings are FIFOs whose `BUG_ON`s cannot fire, that frames decode to the packets they
were built from, that the transmit queue accounts for every packet and exactly when it loses one, that the codecs fail
closed and give back what was packed, and that in the recovery scripts every hard request waits in a call or a stamp written
after it until it is read under the lock, and that one read in time past a failed health check is answered by a reload
before anything else.

Everything that changes state in place is a class or a loop here too (`RingDevice`, `FrameBuffer`, `NetDevice`,
`NetReceive`, `MuxDaemon`, `PyMuxObjects`, `Trace.Deframer`, `RpcObjects`, `SelfHealFiles`, `SelfHealScript`). Each of its methods
is proved equal to a function on values, and the properties are proved about those functions, over every input and every
run.

| files | what they model |
|---|---|
| `Bytes.dfy`, `Mask.dfy` | octets, fixed-width fields, field stores; the index mask of the rings |
| `TdRing.dfy`, `RxRing.dfy`, `RingDevice.dfy` | the transfer-descriptor rings shared with the modem |
| `MuxFrame.dfy`, `MuxReservation.dfy`, `MuxDecode.dfy`, `FrameBuffer.dfy` | the mux frame builder (kernel and user-space layout) and its decoders |
| `NetQueue.dfy`, `NetRuns.dfy`, `NetLoss.dfy`, `NetSequence.dfy`, `NetDevice.dfy`, `NetReceive.dfy` | the network device: the coalescing transmit queue, whole runs of it, what they lose, their sequence numbers, the receive loop |
| `UserMux.dfy`, `UserMuxNumbers.dfy`, `MuxDaemon.dfy` | the user-space multiplexer `mux.c` |
| `PyMux.dfy`, `PyMuxObjects.dfy` | the Python multiplexer `mux.py`, and the agreement of the three builders |
| `Trace.dfy` | the trace deframer `trace.py` |
| `RpcCodec.dfy`, `RpcElements.dfy`, `RpcRoundTrip.dfy`, `RpcGrammar.dfy`, `RpcRefusals.dfy`, `RpcSession.dfy`, `RpcObjects.dfy` | the RPC field codec and the request and response framing of `rpc.py` |
| `Ladder.dfy`, `SelfHealRuns.dfy`, `SelfHealScript.dfy` | the ensure script: its recovery actions, where a run of it can stand, and its loops |
| `SelfHeal.dfy`, `SelfHealFiles.dfy` | the recovery scripts together: stamps, lock and runs in any interleaving |

`dafny verify dfyconfig.toml` checks the whole project.

Where to start reading: `RxRing.RxSafety`, `TdRing.TxFifo`, `MuxDecode.FrameRoundTrip`, `MuxReservation.ReservationSoundIff`,
`NetRuns.EndToEnd`, `NetRuns.StopEnds`, `NetLoss.LosslessIff`, `NetLoss.SilentLoss`, `NetSequence.SequenceNumbers`,
`NetReceive.DownlinkInAnyRun`, `NetReceive.IpReceivedIff`, `UserMux.SoundIff`, `PyMux.TagChain`, `PyMux.LayoutRead`,
`PyMux.EncodersAgree`, `Trace.ChunkIndependence`, `Trace.EndToEnd`, `RpcRoundTrip.PackAcceptsIff`,
`RpcRoundTrip.MessageRoundTrip`, `RpcGrammar.ReadsIff`, `RpcRefusals.BodyCut`, `RpcSession.MessageRead`, `RpcSession.ChatterThenResponse`, `SelfHeal.HardIntent`,
`SelfHeal.HonouredIsReloaded`, `SelfHeal.HealthDecides` and `SelfHealScript.Ensure`.

## Properties that hold only under a condition

Nine properties one would expect are false of the code in general. Each is stated with the exact condition under which it holds.

- An accepted packet does not always reach the wire, and its loss is not always reported. A flush sends the queue exactly when the
  device works, the ring has room and the first packet fits a frame (`NetQueue.FlushShipsIff`). On a full ring the push counts as
  success, so when the timer fires then, the whole queue vanishes with no error and the device queue running (`NetLoss.SilentStep`);
  every working device can be brought to that by a modem that stops reading (`NetLoss.SilentLoss`). With packets within the page size
  less 56 and no device error, nothing that `net_open` did not discard is missing exactly when the timer never fires on a nonempty
  queue and a full ring (`NetLoss.LosslessIff`). In general the lost packets are exactly the queues flushed while the device had
  failed, the ring was full or the first packet was too long (`NetLoss.LostExactly`).
- The kernel does not always receive every packet of a downlink frame: it does exactly when each nonempty one starts with a byte in
  0x40..0x4f or 0x60..0x6f. The first that does not cuts off itself and everything behind it, IP packets included
  (`NetReceive.IpReceivedIff`, `NetReceive.ForeignEndsFrame`).
- The batching of `mux.c` loses nothing exactly for frame sizes of at least 1024 that are divisible by 4, and for those below 56, in
  which no packet fits. For other sizes it writes the longest packet in a frame without a bounds table, since the result of
  `frame_append_adth` is ignored, or takes its FATAL exit (`UserMux.SoundIff`, `UserMux.UnalignedLoses`, `UserMux.NoPacketAllowed`).
- The size test for a packet counts no alignment padding. It leaves room for the ADTH tag exactly for maximum frame sizes
  divisible by 4, which page sizes are (`MuxReservation.ReservationSoundIff`, with the overflowing packet in `MuxReservation.AlignmentOverflow`).
- A string field is read back exactly when its length bytes are a palindrome (so always below 256): the writer puts them most
  significant first, as clause 8.1.3.5 of ITU-T X.690 does, and the reader takes them least significant first. Otherwise the
  count check raises (`RpcRoundTrip.StringRead`, `RpcCodec.SameInBothOrders`, `RpcRoundTrip.TwoByteReadsSame`).
- The deframer undoes an escape with OR where section 4.2 of RFC 1662 has exclusive OR. The two agree exactly for escape sets whose
  octets all have bit 5 set, as 0x7d and 0x7e do (`Trace.StuffInverseIff`, with the wrong octet in `Trace.EscapedControl`).
- The deframer delivers any list of packets, but dies on one of a single octet, whose two-octet header cannot be unpacked (`Trace.EndToEnd`).
- A hard request is not always acted on. A stamp that is read more than 120 seconds after it was written, or by a run that finds the
  link healthy, is removed unanswered (`SelfHealFiles.Machine.ReadHardRequest`); any other is answered by a reload next, unless the
  run is killed before it (`SelfHeal.HonouredIsReloaded`).
- An asynchronous request with an id of 2000 or more would be read back as an acknowledgement, not as a response (`RpcSession.RequestReadsBack`).

Traps of the code that the model keeps: `frame_init` ignores its
`sequence` argument; the 16 zero bytes of a packet lie inside its bounds, so the kernel's own receive path would reject a transmitted
frame; alignment padding is skipped and not cleared in C; `mux.c` ignores the result of `frame_append_adth`; `append_tag` of `mux.py`
has already linked a later tag when `struct.pack` raises; `link_is_up` of ctl follows the ping alone (its verdict is the environment's here).

Where the documentation and the code differ, the model follows the code: docs/MVP.md gives a debounce of 5 seconds (line 20) where the
watcher uses 30 by default (the model takes any), and says that ctl deletes the stamp of a healthy link (line 123) where it keeps it.

## Model

| member | source | states |
|---|---|---|
| Mask.PowerOfTwoTest | src/xmm7360.c:415 | the check made when a ring is created accepts exactly the powers of two |
| Mask.MaskIsModulo | src/xmm7360.c:485-495 | for such a depth, masking an index is reduction modulo the depth |
| TdRing.NextIsCyclic | src/xmm7360.c:485-495 | an index step is one forward, wrapping from the last slot to the first |
| TdRing.WriteAppends | src/xmm7360.c:470-489 | a write that is let in appends its message to those pending and disturbs none of them |
| TdRing.TakeRemovesOldest | src/xmm7360.c:470-489 | the modem's read takes off the oldest pending message and leaves the others |
| TdRing.FullIsCapacity | src/xmm7360.c:491-497 | the ring is full exactly when all slots but one hold pending messages; equal pointers mean empty |
| TdRing.TxStepKeepsFifo | src/xmm7360.c:594-614 | an offer, a modem read or a device failure keeps: accepted = taken followed by pending |
| TdRing.TxFifo | src/xmm7360.c:470-614 | over any run and any number of wraps, what the modem took followed by what is pending is what `qp_write` accepted, each message cut to the page size |
| RxRing.PostAllPointers | src/xmm7360.c:515-566 | the start loop ends with the write pointer one slot behind the read pointer; it keeps every page, posts descriptors of the page size and changes nothing else |
| RxRing.StartInv | src/xmm7360.c:541-573 | a freshly started Rx ring satisfies the ring invariant |
| RxRing.CompleteKeepsInv | src/xmm7360.c:499-523 | a completion by the modem, between any two actions of the poll loop, keeps the ring invariant |
| RxRing.CopyKeepsInv | src/xmm7360.c:644-648 | copying out the oldest message keeps the ring invariant |
| RxRing.RepostKeepsInv | src/xmm7360.c:515-522 | re-posting a descriptor keeps the ring invariant; in particular its `BUG_ON` does not fire |
| RxRing.AdvanceKeepsInv | src/xmm7360.c:652 | moving `last_handled` on keeps the ring invariant |
| RxRing.StepKeepsInv | src/xmm7360.c:639-654 | every step of driver or modem keeps the ring invariant |
| RxRing.RxSafety | src/xmm7360.c:499-654 | in every interleaving after `qp_start`: no `BUG_ON` fires, `s_wptr`+1 is `last_handled` between turns, completions never exceed posted descriptors, and the delivered messages are a prefix of the completed ones, cut only to the reader's buffer |
| RxRing.RepostSparesUnread | src/xmm7360.c:515-522 | the re-posted slot holds no message that is still unread |
| RxRing.DrainedWhenNoData | src/xmm7360.c:632-637 | `qp_has_data` is false exactly when everything completed has been delivered |
| RingDevice.TurnIsThreeSteps | src/xmm7360.c:644-653 | an undisturbed turn of the poll loop is the three steps of the interleaving model, and delivers the oldest message |
| RingDevice.TurnKeeps | src/xmm7360.c:644-653 | a turn takes the oldest unread message, spares the other ones and keeps the write pointer one behind `last_handled` |
| RingDevice.TdRingDevice.Create | src/xmm7360.c:407-441 | a new ring is valid, has its pointers at 0 and nothing pending |
| RingDevice.TdRingDevice.IsFull | src/xmm7360.c:491-497 | true exactly when all slots but one are pending |
| RingDevice.TdRingDevice.Write | src/xmm7360.c:470-489 | appends the message to the pending ones; with room checked first its `BUG_ON` cannot fire |
| RingDevice.TdRingDevice.QpWrite | src/xmm7360.c:600-614 | appends the message cut to the page size, unless the device has failed (-ENODEV) or the ring is full (0) |
| RingDevice.TdRingDevice.Read | src/xmm7360.c:499-523 | re-posts one descriptor, and its `BUG_ON` would fire exactly on a full ring |
| RingDevice.TdRingDevice.QpStart | src/xmm7360.c:564-566 | posts all descriptors but one, ending with the write pointer one behind `last_handled`, and never meets the `BUG_ON` |
| RingDevice.TdRingDevice.HandleOne | src/xmm7360.c:645-652 | hands out the oldest unread message cut to the buffer, and exactly that one leaves the unread window |
| RingDevice.TdRingDevice.TtyPoll | src/xmm7360.c:639-654 | delivers every unread message in full, once and in order |
| RingDevice.TdRingDevice.CdevRead | src/xmm7360.c:698-710 | hands out one message cut to the reader's size; what does not fit is dropped |
| MuxFrame.OpenHolds | src/xmm7360.c:759-798 | a re-initialised frame with its ADBH tag holds no packets and an exact length field |
| MuxFrame.AppendPacketHolds | src/xmm7360.c:834-863 | a packet that passes the size test joins the packets held, with its bound and the grown length field, and disturbs no earlier byte |
| MuxFrame.TwoTagsBuilt | src/xmm7360.c:770-832 | adding the ADTH tag and its table back-patches exactly the link and the two lengths of the layout written from scratch |
| MuxFrame.AdthLayout | src/xmm7360.c:953-961 | finishing succeeds exactly when the aligned tag and table fit, and the pushed bytes are then the whole layout of the packets |
| MuxReservation.ReservationCoversAlignment | src/xmm7360.c:837-848 | for a size divisible by 4 and at least one packet, the aligned ADTH tag and its table always fit |
| MuxReservation.AlignmentOverflow | src/xmm7360.c:779-783 | for any other size, one packet that passes the size test leaves no room for them |
| MuxReservation.ReservationSoundIff | src/xmm7360.c:779-848 | so the reservation is sound exactly for sizes divisible by 4 |
| FrameBuffer.MakeHeader | src/xmm7360.c:242-258 | clearing a header and storing its fields at the declared offsets gives the header of the wire format |
| FrameBuffer.MuxFrameBuffer.constructor | src/rpc/mux.c:51-63 | an allocated, empty frame |
| FrameBuffer.MuxFrameBuffer.Init | src/xmm7360.c:759-768 | empties the frame without touching its bytes |
| FrameBuffer.MuxFrameBuffer.Align | src/xmm7360.c:779-780 | rounds the cursor up to 4; the skipped bytes keep their stale contents |
| FrameBuffer.MuxFrameBuffer.LinkHere | src/xmm7360.c:785-786 | points the last tag's `next`, 16 or 32 bits wide, at the cursor and changes no other byte |
| FrameBuffer.MuxFrameBuffer.AddTag | src/xmm7360.c:770-817 | the in-place tag writer is the value-level one, in its bytes, saved pointers and result |
| FrameBuffer.MuxFrameBuffer.AppendData | src/xmm7360.c:819-832 | appends the data and adds its size to the last tag's length, or fails and changes nothing |
| FrameBuffer.MuxFrameBuffer.AppendPacket | src/xmm7360.c:834-863 | appends 16 zero bytes, the packet and its bound, or fails and changes nothing |
| FrameBuffer.MuxFrameBuffer.AppendAdth | src/rpc/mux.c:168-178 | adds the ADTH tag and the bounds table as the value-level builder does |
| FrameBuffer.MuxFrameBuffer.Complete | src/rpc/mux.c:180-185 | hands out the frame with its total length in the first tag |
| MuxDecode.HandleFrame | src/xmm7360.c:1029-1086 | hands up, in order, the nonempty slices in front of the first one that is not IPv4 or IPv6; nothing for other tags |
| MuxDecode.AllInPage | src/rpc/mux.c:247-248 | when every bound lies in the page, those are all the slices |
| MuxDecode.TableOnlyIf | src/xmm7360.c:1039-1059 | no packet is taken from a page unless it starts with an ADBH tag that links to an ADTH tag whose table lies in the page |
| MuxDecode.UpToForeignIs | src/xmm7360.c:1074-1082 | the cut made on receiving is in front of the first nonempty packet whose first byte is not in 0x40..0x4f or 0x60..0x6f, or nowhere |
| MuxDecode.KernelReceives | src/xmm7360.c:1061-1085 | of any frame within its page the kernel receives exactly the nonempty packets in front of that cut, and ends on the packet behind it |
| MuxDecode.CellsOfPackets | src/xmm7360.c:852-861 | the table the builder writes cuts the body into the packets, each behind its 16 zero bytes |
| MuxDecode.LayoutDecodes | src/xmm7360.c:1039-1070 | both decoders, on a page that starts with a finished frame, find every packet in order, whatever follows on the page |
| MuxDecode.FrameRoundTrip | src/xmm7360.c:770-1070 | what the builder pushes for any packets it accepted decodes to 16 zero bytes followed by packet i, for every i in order |
| MuxDecode.TransmittedIsNotReceived | src/xmm7360.c:1074-1082 | the kernel's own receive path rejects every nonempty transmitted frame at its first packet |
| NetQueue.PackAll | src/xmm7360.c:947-951 | a queue that fits one frame is packed whole; no step of the loop fails |
| NetQueue.PackWhole | src/xmm7360.c:944-951 | the same, from the frame that a flush opens |
| NetQueue.BuildFits | src/xmm7360.c:944-961 | a queue that fits is built into one finished frame no longer than a page |
| NetQueue.FlushFits | src/xmm7360.c:934-968 | a flush of such a queue offers exactly that frame to the ring |
| NetQueue.FlushEmpties | src/xmm7360.c:934-981 | with true counters, every exit of a flush, `drop:` included, leaves an empty queue and zero counters; no packet is stranded |
| NetQueue.FlushTakesHead | src/xmm7360.c:947-951 | a flush takes packets off the head of the queue and keeps the rest in order |
| NetQueue.FlushShipsIff | src/xmm7360.c:600-981 | a flush sends the queue exactly when the device works, the ring has room and the first packet fits a frame; otherwise the ring is untouched, and the device queue is stopped only for an error or an oversize packet |
| NetQueue.UnpackableIff | src/xmm7360.c:846-848 | packing fails exactly when the first queued packet is too long for any frame, and that packet is then alone in the queue |
| NetQueue.OversizeFails | src/xmm7360.c:950-956 | such a packet puts nothing on the ring |
| NetQueue.MustFlushIsPackerTest | src/xmm7360.c:919-932 | the admission test says "flush" exactly when the packer would refuse the packet behind the queue |
| NetQueue.XmitKeepsAccounted | src/xmm7360.c:993-1027 | a transmission keeps the counters equal to the queue and the queue within one frame |
| NetQueue.OpenAccounts | src/xmm7360.c:902-911 | opening the device empties the queue and makes the counters true, whatever they were; it returns 0 exactly on a working device |
| NetQueue.XmitFlushShips | src/xmm7360.c:1004-1017 | a flush caused by a transmission on a working device never meets a full ring: it ships the queue exactly when its first packet fits a frame, and the new packet is then alone in the queue |
| NetQueue.WakeIff | src/xmm7360.c:1098-1099 | after the poll the device queue is stopped exactly when it was before and all ring slots but one are pending; nothing else changes |
| NetQueue.XmitAcceptsIff | src/xmm7360.c:993-1027 | a packet is refused exactly when the device queue is stopped, or neither the ring has room nor the frame room for it among at most 64; a refusal only stops the device queue, and an accepted packet is last in the queue |
| NetRuns.NextConserves | src/xmm7360.c:902-1027 | every step keeps: accepted packets = packets that left the queue, then the queue |
| NetRuns.FlushSends | src/xmm7360.c:934-981 | one flush puts on the wire exactly the packets it records as shipped |
| NetRuns.ControlIsControl | src/xmm7360.c:877-910 | the frame sent on open is the 44-byte control frame, which carries no packet |
| NetRuns.NextKeeps | src/xmm7360.c:902-1099 | every step of stack, timer, poll, modem or failure keeps the whole invariant |
| NetRuns.EndToEnd | src/xmm7360.c:902-1099 | over every run with packets of any length: counters equal the queue, every accepted packet is accounted for once and in order, and the frames on the wire decode to exactly the packets recorded as shipped |
| NetRuns.AcceptedWithin | src/xmm7360.c:1015-1017 | a run accepts no packet longer than those offered |
| NetRuns.PackingNeverFails | src/xmm7360.c:919-962 | with packets that leave room for the headers, no packing step of any flush of any run fails |
| NetRuns.StopEnds | src/xmm7360.c:993-1099 | after any run, on a ring of more than one slot: once the modem has taken a frame off a full ring, the next poll wakes the device queue and the next packet is accepted, so no stop is permanent |
| NetRuns.FailedIsSilent | src/xmm7360.c:600-606 | once the device has failed, no run puts another frame on the wire |
| NetRuns.ClosedRefuses | src/xmm7360.c:902-917 | a closed device refuses every packet and keeps its state; opening it lets packets in again |
| NetLoss.ShippedOrLost | src/xmm7360.c:962-980 | the packets taken by flushes are the shipped and the lost ones, none twice |
| NetLoss.StepLoses | src/xmm7360.c:902-1099 | one step loses the whole queue when it flushes while the device has failed, the ring is full or the first packet is too long, and nothing otherwise |
| NetLoss.LostExactly | src/xmm7360.c:902-1099 | over every run, with packets of any length and a failure at any time, the lost packets are in order exactly the queues that such flushes met |
| NetLoss.LosslessIff | src/xmm7360.c:865-1017 | on a working device with packets within the page size less 56, wire and queue hold, in order, all accepted packets that `net_open` did not discard exactly when the timer never fired on a nonempty queue and a full ring |
| NetLoss.SilentStep | src/xmm7360.c:607-966 | the timer on a full ring empties queue and counters with no error, the device queue running, and ring and wire unchanged |
| NetLoss.SilentLoss | src/xmm7360.c:607-991 | every freshly opened working device has a run, with any packet that fits, in which an accepted packet is lost that way |
| NetSequence.ControlRead | src/xmm7360.c:877-896 | a reader of a control frame finds an ACBH tag with its number and the total length, linked to a CMDH tag with the channel and the four arguments |
| NetSequence.OpenAnnounces | src/xmm7360.c:877-911 | opening puts exactly one control frame with the arguments 1, 0, 0, 0 on the wire, unless the device has failed or the ring is full |
| NetSequence.FlushNumbers | src/xmm7360.c:934-968 | a flush of a nonempty queue uses up one sequence number, and the frame it ships carries it |
| NetSequence.SequenceNumbers | src/xmm7360.c:759-968 | over every run the counter is the number of flushes, and the data frames on the wire carry, in order and modulo 65536, the numbers of the flushes that shipped |
| NetSequence.SuccessiveNumbers | src/xmm7360.c:934-968 | when every flush ships, successive data frames carry successive numbers |
| NetDevice.XmmNet.constructor | src/xmm7360.c:1146-1181 | a new device has an empty queue and an empty Tx ring of 128 pages of 16384 bytes |
| NetDevice.XmmNet.PushFrame | src/xmm7360.c:865-875 | offers the completed frame to the ring; a full ring counts as success |
| NetDevice.XmmNet.MustFlushNow | src/xmm7360.c:919-932 | true when 64 packets are queued or the frame with the new packet would be too long |
| NetDevice.XmmNet.PackQueue | src/xmm7360.c:947-951 | the packing loop takes packets off the queue as the value-level packer does |
| NetDevice.XmmNet.BuildFrame | src/xmm7360.c:944-961 | builds the same frame, and leaves the same queue, as the value-level builder |
| NetDevice.XmmNet.FinishFrame | src/xmm7360.c:953-961 | adds the ADTH tag and the bounds table to a packed frame, and leaves any other alone |
| NetDevice.XmmNet.ShipFrame | src/xmm7360.c:962-968 | the push and the reset of the counters |
| NetDevice.XmmNet.DropFrame | src/xmm7360.c:970-980 | zeroes the counters and stops the device queue |
| NetDevice.XmmNet.FlushQueue | src/xmm7360.c:934-981 | the whole in-place flush is the value-level one that `FlushEmpties` and `FlushSends` are about |
| NetDevice.XmmNet.XmitPacket | src/xmm7360.c:993-1027 | the in-place transmission has the state and status of the value-level one |
| NetDevice.XmmNet.EnqueuePacket | src/xmm7360.c:1015-1017 | adds the packet behind the queue and its 16 + length bytes to the counter |
| NetDevice.XmmNet.SendControl | src/xmm7360.c:877-896 | pushes the control frame, leaves the queue alone, and returns the push's error |
| NetDevice.XmmNet.OpenDevice | src/xmm7360.c:902-911 | discards the queue, restarts the device queue, sends the control frame and returns its result: -ENODEV on a failed device, else 0 |
| NetDevice.XmmNet.CloseDevice | src/xmm7360.c:913-917 | stops the device queue and leaves queued packets, counters and ring |
| NetDevice.XmmNet.WakeQueue | src/xmm7360.c:1098-1099 | afterwards the device queue is stopped exactly when it was before and all ring slots but one are pending |
| NetReceive.TurnTakesPage | src/xmm7360.c:1101-1109 | a turn of the receive loop takes the oldest completed page and changes none of the other ones |
| NetReceive.PollFrames | src/xmm7360.c:1101-1109 | the receive loop decodes every completed page once and in order, and ends with none left |
| NetReceive.FrameReceived | src/xmm7360.c:1029-1086 | a page that starts with a finished frame of any packets, whatever its unread pad bytes, gives exactly the nonempty packets in front of the first that is not IPv4 or IPv6 |
| NetReceive.IpReceivedIff | src/xmm7360.c:1061-1085 | all nonempty packets of a frame are received exactly when each starts with a byte in 0x40..0x4f or 0x60..0x6f |
| NetReceive.ForeignEndsFrame | src/xmm7360.c:1074-1082 | the first nonempty packet that starts otherwise cuts off itself and everything behind it, and nothing else |
| NetReceive.DownlinkDelivers | src/xmm7360.c:1029-1109 | a list of such pages gives the stack, frame by frame and in order, the packets so received, whatever stale bytes follow the frames |
| NetReceive.PageOfMessage | src/xmm7360.c:1101-1104 | the page the decoder is called on starts with the oldest message not delivered yet |
| NetReceive.StepDecodes | src/xmm7360.c:1101-1109 | every step of driver or modem keeps the ring invariant and that the decoder was called on the completed messages, one page each and in order |
| NetReceive.CarriedOnPage | src/xmm7360.c:1039-1059 | a frame is found on any page that starts with it |
| NetReceive.DownlinkInAnyRun | src/xmm7360.c:499-1109 | in every interleaving of modem and poll loop after `qp_start`: no `BUG_ON` fires, and if the modem completes finished frames of any packets, the stack has, frame by frame and in order, of the first so many of them the nonempty packets in front of the first that is not IPv4 or IPv6, and of all of them once the loop finds no more data |
| UserMux.PushWrites | src/rpc/mux.c:264-266 | pushing the open frame writes exactly its packets, within both limits, and opens an empty frame |
| UserMux.TimerKeeps | src/rpc/mux.c:350-355 | a timer flush loses and doubles nothing |
| UserMux.TunAppends | src/rpc/mux.c:261-267 | a packet that fits joins the open frame, which is pushed once it is full |
| UserMux.TunRetries | src/rpc/mux.c:263-271 | a packet that does not fit closes the open frame and starts the next one |
| UserMux.FatalIff | src/rpc/mux.c:269-276 | the FATAL exit is taken exactly for a packet that leaves no room for the headers |
| UserMux.ControlBytes | src/rpc/mux.c:300-304 | the first frame written is a 44-byte control frame without packets, or its 16-byte first tag where no more fits |
| UserMux.StartedHolds | src/rpc/mux.c:300-306 | for every frame size the start writes no packet and leaves an empty open frame |
| UserMux.StartedAnnounces | src/rpc/mux.c:300-304 | where it fits, the control frame with the given arguments is all that is written at the start |
| UserMux.StartupInv | src/rpc/mux.c:300-306 | after the start nothing is lost and the open frame is empty |
| UserMux.Batching | src/rpc/mux.c:124-355 | for frame sizes of at least 1024 divisible by 4 (`UserMux.SoundIff` has the others), every sequence of packets that leave room for the headers and timer flushes anywhere: no FATAL exit, the packets written and then those in the open frame are the packets read, and every frame obeys both limits |
| UserMux.NoPacketAllowed | src/rpc/mux.c:126-276 | below a frame size of 1024 the first packet ends the process |
| UserMux.UnalignedLoses | src/rpc/mux.c:263-266 | for a size not divisible by 4, the longest packet is read and never written where a decoder finds it |
| UserMux.SoundIff | src/rpc/mux.c:124-355 | all runs lose nothing and stay alive exactly for sizes of at least 1024 divisible by 4, and for those below 56 |
| UserMuxNumbers.FramesNumbered | src/rpc/mux.c:65-111 | over every run and for every frame size, the frames written, the control frame first, carry successive sequence numbers modulo 65536 |
| MuxDaemon.Daemon.constructor | src/rpc/mux.c:51-63 | a daemon with an allocated empty frame and nothing written |
| MuxDaemon.Daemon.BeginFrame | src/rpc/mux.c:65-90 | opens the next frame and uses up one 16-bit sequence number |
| MuxDaemon.Daemon.WriteFrame | src/rpc/mux.c:180-193 | writes the completed frame |
| MuxDaemon.Daemon.FlushFrame | src/rpc/mux.c:350-355 | finishes and writes the open frame, then opens the next |
| MuxDaemon.Daemon.HandleTunFrame | src/rpc/mux.c:251-277 | the in-place handler is the value-level one in its frames, sequence number and FATAL exit |
| MuxDaemon.Daemon.TryAgain | src/rpc/mux.c:269-276 | the second attempt for a packet, whose failure is the FATAL exit |
| MuxDaemon.Daemon.TimerFlush | src/rpc/mux.c:350-355 | flushes exactly when the open frame has packets |
| MuxDaemon.Daemon.HandleMuxFrame | src/rpc/mux.c:221-249 | writes to the tun device exactly the slices the bounds name, in order, up to the first that leaves the page; nothing for other tags |
| PyMux.AppendEncodes | src/rpc/mux.py:22-38 | one `append_tag` turns the encoding of k-1 tags into that of k tags, re-pointing only the last link |
| PyMux.Build | src/rpc/mux.py:22-38 | after any list of `append_tag` calls the object holds exactly the encoding of those tags |
| PyMux.EncodeHolds | src/rpc/mux.py:22-38 | in an encoding every tag sits complete at its own offset, with the offset of the next one in its pointer |
| PyMux.TagChain | src/rpc/mux.py:16-38 | walking the pointers from offset 0 meets exactly the appended tags in order, at increasing offsets divisible by 4, each with its data, later ones with their length, the first with the total |
| PyMux.SelfCheck | src/rpc/mux.py:57-66 | the check made at start-up holds: the frame seen on the wire is rebuilt byte for byte, and so for any 96 bytes of data |
| PyMux.PackageLayout | src/rpc/mux.py:42-50 | `package` builds the kernel's layout of a frame of one packet on channel 0 |
| PyMux.PackageRoundTrip | src/rpc/mux.py:42-105 | `read_mux` takes 16 zero bytes and the packet, and nothing else, out of `package` of that packet |
| PyMux.LayoutRead | src/rpc/mux.py:90-105 | `read_mux` takes every packet, each behind 16 zero bytes and in order, out of a finished frame of any number of packets |
| PyMux.FrameRead | src/rpc/mux.py:90-105 | so it does for the frames the kernel and the user-space C builder complete, on any channel and with any padding |
| PyMux.ReadMuxEdges | src/rpc/mux.py:90-105 | `read_mux` takes nothing from a frame of another kind or one that links to no ADTH tag, and raises exactly when one of the two tags is cut short |
| PyMux.BuilderBytes | src/rpc/mux.c:65-185 | a C builder with cleared padding produces that layout too, for either header declaration |
| PyMux.EncodersAgree | src/rpc/mux.py:16-50 | for one packet, equal sequence number, channel 0 and cleared padding, the kernel, the user-space C and the Python builder produce the same bytes |
| PyMuxObjects.MuxPacket.constructor | src/rpc/mux.py:11-14 | an empty packet |
| PyMuxObjects.MuxPacket.Pad | src/rpc/mux.py:28-29 | pads with zeros to a multiple of 4 |
| PyMuxObjects.MuxPacket.LinkNext | src/rpc/mux.py:28-31 | pads, and overwrites the last tag's pointer with the new length |
| PyMuxObjects.MuxPacket.Append | src/rpc/mux.py:22-38 | the in-place `append_tag` is the value-level one, and raises exactly when a 16-bit field overflows |
| PyMuxObjects.MuxPacket.Finish | src/rpc/mux.py:16-20 | puts the total over the first tag's length and keeps it there |
| PyMuxObjects.XmmMux.PackageNext | src/rpc/mux.py:42-50 | steps the sequence number modulo 256 and packages the packet, or raises exactly when its length does not fit |
| Trace.UnescapePacket | src/trace/trace.py:20-27 | the loop undoes escapes from left to right, and raises exactly on an escape with nothing behind it |
| Trace.RaisesIff | src/trace/trace.py:20-27 | unescaping raises exactly on a packet that ends with an odd number of escape octets |
| Trace.PlainStays | src/trace/trace.py:20-27 | a packet without an escape octet comes out unchanged |
| Trace.StuffInverse | src/trace/trace.py:20-27 | it inverts octet stuffing whenever all escaped octets have bit 5 set |
| Trace.StuffInverseIff | src/trace/trace.py:25 | and for no other set of escaped octets |
| Trace.EscapedControl | src/trace/trace.py:25 | an escaped octet without bit 5 comes back 32 too high |
| Trace.CutLoopScans | src/trace/trace.py:115-123 | the inner loop cuts what an octet-at-a-time deframer cuts, and leaves no second flag in the buffer |
| Trace.ChunkScans | src/trace/trace.py:108-123 | one chunk, with any buffer left from before, gives the segments and the state of that deframer |
| Trace.ChunkIndependence | src/trace/trace.py:104-123 | for any octets, even malformed, the segments and the buffer left depend only on the octets read before the first empty read, and not on how they were read |
| Trace.FeedAllDelivers | src/trace/trace.py:104-125 | the process hands over the unescaped segments of the stream up to the first that raises |
| Trace.DeliverDies | src/trace/trace.py:74-125 | the first segment that ends inside an escape, or comes out as fewer than two octets, is where the process dies; the segments in front of it are all handed over, none behind it is |
| Trace.DeliverStuffed | src/trace/trace.py:74-125 | stuffed packets come out as they went in, up to the first single-octet one |
| Trace.EndToEnd | src/trace/trace.py:74-125 | any nonempty packets, stuffed, separated by flags, after noise, in any chunks, are handed over exactly and in order; the process dies exactly when one is a single octet |
| Trace.UpToShortAll | src/trace/trace.py:74-75 | with no single-octet packet, all are handed over |
| Trace.Deframer.constructor | src/trace/trace.py:102 | an empty buffer |
| Trace.Deframer.Receive | src/trace/trace.py:104-113 | one turn of the outer loop: an empty read ends the process; any other keeps the buffer empty or starting with its only flag |
| Trace.Deframer.CutSegments | src/trace/trace.py:115-125 | the inner loop ends on every buffer and hands over its segments in order |
| Trace.Deframer.HandleSegment | src/trace/trace.py:125 | hands over one unescaped segment, or dies on a trailing escape or a packet of fewer than two octets |
| RpcCodec.MinBeValue | src/rpc/rpc.py:155-160 | the writer's long-form length bytes stand for the length, most significant first |
| RpcCodec.LeIsReversedBe | src/rpc/rpc.py:185-188 | the reader takes the bytes in the opposite order |
| RpcCodec.BeInjective | src/rpc/rpc.py:155-160 | length bytes of one size stand for different numbers |
| RpcCodec.SameInBothOrders | src/rpc/rpc.py:155-188 | both orders give the same number exactly for palindromes |
| RpcElements.ElemStored | src/rpc/rpc.py:147 | an element is packed exactly when its type can hold it, to bytes that stand for it least significant first: itself, its two's complement, 0 or 1, or the bit pattern of a float |
| RpcElements.PayloadStores | src/rpc/rpc.py:147 | a list is packed exactly when each element can be, and byte group i of the payload stands for element i |
| RpcElements.OctetsStored | src/rpc/rpc.py:147 | for the letter B the payload is the list itself |
| RpcRoundTrip.PackLong | src/rpc/rpc.py:13-14 | `asn_int4` and `pack` with an `L` write the same bytes |
| RpcRoundTrip.LengthRead | src/rpc/rpc.py:152-188 | the reader takes exactly the length field off the data, though it may misread it |
| RpcRoundTrip.PayloadRead | src/rpc/rpc.py:197-203 | a misread length is always caught by the count check |
| RpcRoundTrip.StringRead | src/rpc/rpc.py:136-203 | the reader returns exactly the payload and leaves exactly the rest, or raises, and raises exactly when the length bytes are no palindrome |
| RpcRoundTrip.ShortReadsSame | src/rpc/rpc.py:152-188 | lengths below 256 always read back |
| RpcRoundTrip.TwoByteReadsSame | src/rpc/rpc.py:155-188 | from 256 to 65535 a length reads back exactly when its two bytes are equal |
| RpcRoundTrip.ItemsUnpack | src/rpc/rpc.py:206-235 | both readers give back every packed field in order, or raise when a length does not read back |
| RpcRoundTrip.DecimalReads | src/rpc/rpc.py:137-141 | the number of elements in a format is read as the decimal number written there |
| RpcRoundTrip.PackAcceptsIff | src/rpc/rpc.py:136-264 | the writer succeeds exactly for a legal format with one argument for each of its entries, of the kind and within the limits of the entry |
| RpcRoundTrip.ItemsMatchArgs | src/rpc/rpc.py:238-264 | the writer packs one field per argument and format entry, in order: the number in as many bytes as its letter says, most significant first, or the elements as `RpcElements` says, tagged with their size and padded with zeros to the length of the entry |
| RpcRoundTrip.MessageRoundTrip | src/rpc/rpc.py:206-264 | for every legal format and fitting arguments, both readers agree, succeed exactly when all string lengths read back, and then return one value per argument in order: the number, or bytes that stand for its elements one after the other; otherwise both raise |
| RpcGrammar.FieldTaken | src/rpc/rpc.py:170-203 | every field of the wire form, whoever wrote it, is read as its value with the rest left: a number of any size; a string with a short or long length, a size of its room that is 0 or the true one, and any padding |
| RpcGrammar.FieldParts | src/rpc/rpc.py:170-203 | whatever field is read had that form |
| RpcGrammar.BodyReads | src/rpc/rpc.py:206-219 | a list of such fields is read as their values in order |
| RpcGrammar.ReadBody | src/rpc/rpc.py:206-219 | any body that is read is such a list |
| RpcGrammar.ReadsIff | src/rpc/rpc.py:206-219 | the reader takes exactly the bodies that are a list of such fields, and gives their values |
| RpcGrammar.FormatReads | src/rpc/rpc.py:222-235 | with a format of one letter for each field in front the reader gives their values and ignores what follows |
| RpcGrammar.FormatOnly | src/rpc/rpc.py:222-235 | data read with a format starts with fields of the kinds it names |
| RpcRefusals.PackRefuses | src/rpc/rpc.py:238-264 | what the writer raises on too many or too few arguments, an unknown letter, a number out of range, or an element type that is missing |
| RpcRefusals.StringRefuses | src/rpc/rpc.py:136-167 | what it raises on a string without length, with too many elements, of an unknown or an 8-byte type, or with an element its type cannot hold |
| RpcRefusals.StringArgRefuses | src/rpc/rpc.py:141-142 | what it raises on a number in the place of a string |
| RpcRefusals.OtherTagRefused | src/rpc/rpc.py:210-217 | a body that starts with any other tag raises `ValueError` |
| RpcRefusals.FieldCut | src/rpc/rpc.py:170-203 | a field cut off anywhere raises `IndexError` |
| RpcRefusals.BodyCut | src/rpc/rpc.py:206-219 | so does a body cut off inside any of its fields |
| RpcSession.RequestReadsBack | src/rpc/rpc.py:49-116 | a request meets its own length assertion and is read back with matching lengths, the same id, transaction word and body, sync and async; from id 2000 on, async, as an acknowledgement |
| RpcRefusals.MessageRefused | src/rpc/rpc.py:83-116 | why a message is refused: wrong length tags, a header cut short, an undecodable body, or an asynchronous response without or with another word in front |
| RpcSession.MessageRead | src/rpc/rpc.py:83-116 | a message is read exactly when its two length tags are right, its body decodes and an asynchronous response repeats its word; it is unsolicited exactly when bytes 16 to 18 are not 0x11, 0x00, 0x01, an acknowledgement exactly when they are, byte 19 is not 0 and the id is at least 2000; body and fields are all that follows the header, less the repeated word |
| RpcSession.PumpIs | src/rpc/rpc.py:34-47 | `pump` raises exactly on a message that is not read, an attach indication of fewer than three fields, or a response body that does not print; only an attach indication changes the flag, to its third field |
| RpcSession.AwaitFirstResponse | src/rpc/rpc.py:34-122 | `execute` returns the first response of any stream, by its bytes, and consumes exactly through it; `attach_allowed` then is the third field of the last attach indication consumed, or unchanged |
| RpcSession.AwaitPasses | src/rpc/rpc.py:76-122 | with no response in the stream it waits on, with the flag of the last attach indication |
| RpcSession.AwaitGotIff | src/rpc/rpc.py:76-122 | `execute` returns exactly on streams in which some message is read as a response and every earlier one without raising; it waits on exactly when every message is read and none is a response |
| RpcSession.ChatterThenResponse | src/rpc/rpc.py:49-122 | any acknowledgements and indications with decodable bodies, then a request, then anything: `execute` returns that request's id, body and fields, leaves what follows, and has the flag at the third field of the last attach indication |
| RpcObjects.ByteArray.Pop | src/rpc/rpc.py:171-172 | takes the first byte off, or raises on an empty array |
| RpcObjects.ByteArray.PopBigEndian | src/rpc/rpc.py:173-177 | takes n bytes off as one number, first byte most significant |
| RpcObjects.ByteArray.PopLittleEndian | src/rpc/rpc.py:185-188 | takes n bytes off as one number, first byte least significant |
| RpcObjects.ByteArray.TakeAsnInt | src/rpc/rpc.py:170-177 | takes one tagged integer off the front, or raises as the value-level reader does |
| RpcObjects.ByteArray.TakeStringLength | src/rpc/rpc.py:183-188 | takes a short or long length off the front |
| RpcObjects.ByteArray.TakeRest | src/rpc/rpc.py:197-203 | checks the count, then takes payload and padding off, returning the payload |
| RpcObjects.ByteArray.TakeStr | src/rpc/rpc.py:180-203 | takes one string off the front, or raises as the value-level reader does |
| RpcObjects.ByteArray.TakeOne | src/rpc/rpc.py:211-217 | takes one field of either kind off, or raises on another tag |
| RpcObjects.ByteArray.TakeOneOf | src/rpc/rpc.py:226-233 | takes the field its format letter names off, or raises |
| RpcObjects.UnpackAll | src/rpc/rpc.py:206-219 | ends on every input, with the fields of the value-level reader or its exception |
| RpcObjects.UnpackFormat | src/rpc/rpc.py:222-235 | the same for the reader with a format |
| RpcObjects.LongLength | src/rpc/rpc.py:155-160 | the writer's loop produces the shortest big-endian form |
| RpcObjects.PopDigits | src/rpc/rpc.py:137-139 | the digit loop takes exactly the leading digits off the format |
| RpcObjects.PackLength | src/rpc/rpc.py:152-160 | the length field, short form below 128 and long form from there |
| RpcObjects.PackStringField | src/rpc/rpc.py:136-167 | assembles the string field part by part and leaves the rest of the format, or raises as the value-level writer does |
| RpcObjects.PackTurn | src/rpc/rpc.py:243-259 | one turn takes one argument and its part of the format, or raises as the value-level writer does |
| RpcObjects.PackMessage | src/rpc/rpc.py:238-264 | the loop that eats format and arguments writes the fields one after the other, or raises as the value-level writer does |
| RpcObjects.XMMRPC.PumpOne | src/rpc/rpc.py:34-47 | reads one message and sets `attach_allowed` from an attach indication only |
| RpcObjects.XMMRPC.Execute | src/rpc/rpc.py:49-81 | writes the request, then consumes exactly through the first response; its length assertion cannot fail |
| SelfHeal.ReadBeforeIsNoAnswer | files/usr/local/bin/fibocom-l850-watch:76-90 | a stamp written before an event does not answer it, even one of the same second |
| SelfHeal.ActCarries | files/usr/local/bin/fibocom-l850-watch:76-99 | right after a hard event, debounced or not, a hard call caused by it or a stamp written after it carries it |
| SelfHeal.ActKeeps | files/usr/local/bin/fibocom-l850-watch:76-99 | an event, debounced or not, drops no hard request that is not read yet, its own included |
| SelfHeal.SoftCallKeeps | files/usr/local/bin/fibocom-l850-ctl:71-84 | a soft call of ctl drops none |
| SelfHeal.ConsumeKeeps | files/usr/local/bin/fibocom-l850-up-retry:37-45 | reading and removing the stamp answers every request it stood for |
| SelfHeal.NextKeepsIntent | files/usr/local/bin/fibocom-l850-watch:76-99 | every step keeps each hard event in a hard call caused by it or later, in a stamp written after it, or among the stamps that were written after it and read |
| SelfHeal.NextReadsOnce | files/usr/local/bin/fibocom-l850-up-retry:37-45 | every step keeps that a stamp is read at most once, and honoured exactly when at most 120 seconds old |
| SelfHeal.NextSpaces | files/usr/local/bin/fibocom-l850-watch:76-90 | every step keeps the values of `LAST` at least the debounce window apart |
| SelfHeal.NextLocks | files/usr/local/bin/fibocom-l850-up-retry:79-84 | every step keeps that whoever is past the lock holds it, and nobody else |
| SelfHeal.NextJudges | files/usr/local/bin/fibocom-l850-up-retry:189-199 | every step keeps that a stamp is discarded exactly by a run whose health check said healthy |
| SelfHeal.NextWrites | files/usr/local/bin/fibocom-l850-ctl:71-84 | every step keeps that each hard event has written one stamp or is a hard call on its way |
| SelfHeal.NextFromSteps | files/usr/local/bin/fibocom-l850-up-retry:189-231 | every step keeps that verdicts and outcomes in a run are those of its steps |
| SelfHeal.NextClimbs | files/usr/local/bin/fibocom-l850-up-retry:189-245 | every step keeps that each run is within the ladder where it stands, and that its trace has each request it had to honour |
| SelfHeal.HardIntent | files/usr/local/bin/fibocom-l850-up-retry:37-84 | over every interleaving: a hard event leaves a call on its way or a stamp written after it, and no older than it, until such a stamp is read under the lock; every stamp was written for one hard event, so a soft call writes none; stamps are read at most once and honoured exactly within 120 seconds; `LAST` values are spaced; at most one run is in a bring-up |
| SelfHeal.HonouredIsReloaded | files/usr/local/bin/fibocom-l850-up-retry:199-241 | over every interleaving and for every run: each stamp it read within 120 seconds after its health check failed is answered by a reload before anything else it does, so before its next bring-up; bring-ups and reloads stay within the bounds of the ladder |
| SelfHeal.HealthDecides | files/usr/local/bin/fibocom-l850-up-retry:189-245 | over every interleaving: a stamp is discarded exactly by a run whose health check, in some step, said healthy; such a run does nothing; a run told otherwise, unless killed, ends only after a successful bring-up or after all ROUNDS*TRIES attempts failed |
| SelfHeal.LockedOutIff | files/usr/local/bin/fibocom-l850-up-retry:79-84 | a run gets past the lock exactly when no other run is past it, and exits otherwise |
| SelfHeal.KilledFreesLock | files/usr/local/bin/fibocom-l850-up-retry:79-84 | a run that is killed is over with what it has done, and a lock it held is free |
| SelfHeal.RunHistory | files/usr/local/bin/fibocom-l850-watch:76-99 | over every interleaving each hard event is on record, and the clock shows the time that has passed |
| SelfHeal.PassedOnIff | files/usr/local/bin/fibocom-l850-watch:76-99 | an event becomes a call of its own kind exactly when no event was passed on within the debounce window |
| SelfHealFiles.Machine.constructor | files/usr/local/bin/fibocom-l850-watch:30-32 | a machine with no stamp, no lock and no call satisfies all invariants |
| SelfHealFiles.Machine.PutStamp | files/usr/local/bin/fibocom-l850-ctl:75 | the stamp holds the current time |
| SelfHealFiles.Machine.WatchAct | files/usr/local/bin/fibocom-l850-watch:76-99 | after a hard event its request is kept, in or out of the debounce window, and all invariants hold |
| SelfHealFiles.Machine.CtlStart | files/usr/local/bin/fibocom-l850-ctl:71-84 | a hard call writes its stamp before anything else is decided, and all invariants hold |
| SelfHealFiles.Machine.ReadStamp | files/usr/local/bin/fibocom-l850-up-retry:37-45 | true exactly for a stamp at most 120 seconds old; the stamp is gone either way |
| SelfHealFiles.Machine.CheckHealth | files/usr/local/bin/fibocom-l850-up-retry:189-199 | the run notes the answer, and goes on to discard the stamp if healthy, else to read the request |
| SelfHealFiles.Machine.ReadHardRequest | files/usr/local/bin/fibocom-l850-up-retry:189-224 | a run whose health check failed goes on to a reload exactly when the stamp was at most 120 seconds old; one whose check said healthy leaves without an action |
| SelfHealFiles.Machine.TryLockFile | files/usr/local/bin/fibocom-l850-up-retry:79-84 | succeeds exactly when nobody holds the lock, and then this run holds it and nobody else is past it; otherwise the run ends |
| SelfHealFiles.Machine.HardRecover | files/usr/local/bin/fibocom-l850-up-retry:115-137 | after the reload no request the run has honoured is owed an answer, and all invariants hold |
| Ladder.AnswerClimbs | files/usr/local/bin/fibocom-l850-up-retry:221-224 | an honoured request and its reload keep the count of reloads beside the answered requests |
| Ladder.UpClimbs | files/usr/local/bin/fibocom-l850-up-retry:226-231 | a bring-up adds one to the count, and ends the trace if it succeeds |
| Ladder.AttemptClimbs | files/usr/local/bin/fibocom-l850-up-retry:216-233 | one attempt adds one bring-up, and answers a fresh hard request with a reload first |
| Ladder.ReloadClimbs | files/usr/local/bin/fibocom-l850-up-retry:236-241 | the reload between rounds keeps the counts and the order |
| SelfHealRuns.AskedOk | files/usr/local/bin/fibocom-l850-up-retry:199-224 | reading the request, honoured or not, keeps the order and the bounds of the ladder where the run then stands |
| SelfHealRuns.ReloadedOk | files/usr/local/bin/fibocom-l850-up-retry:115-241 | so does a reload, after a request or between rounds |
| SelfHealRuns.TriedOk | files/usr/local/bin/fibocom-l850-up-retry:203-233 | so does a bring-up, whether it succeeds or fails, on entry, inside a round or at its end |
| SelfHealRuns.KilledOk | files/usr/local/bin/fibocom-l850-up-retry:189-245 | a run killed anywhere is within the bounds, and every request it honoured but the last was answered at once |
| SelfHealScript.AdvanceIsStep | files/usr/local/bin/fibocom-l850-up-retry:189-245 | a step of a run on its own is its step in the interleaving model, and moves no other run |
| SelfHealScript.AttemptSteps | files/usr/local/bin/fibocom-l850-up-retry:216-233 | an attempt of the loops is three or four steps of a run of the shared model |
| SelfHealScript.AnswerEntry | files/usr/local/bin/fibocom-l850-up-retry:199-211 | the request read on entry: a reload and one bring-up, or straight to the rounds |
| SelfHealScript.TryRound | files/usr/local/bin/fibocom-l850-up-retry:216-233 | the inner loop makes every attempt of its round, or ends with the first that succeeds |
| SelfHealScript.Ensure | files/usr/local/bin/fibocom-l850-up-retry:189-245 | for all ROUNDS and TRIES_PER_ROUND: the health check and the nested loops take a run of the shared model from its check to its end; every honoured request is followed at once by a reload; at most ROUNDS*TRIES+1 bring-ups and ROUNDS-1 reloads beyond the honoured requests; exit 0 ends in the only success or a healthy link; exit 1 means every attempt was made and failed |

## Left out

- Descriptor memory: a page is a value in its slot, so DMA, the addresses the modem sees and the doorbells are not modelled; nor are the command ring, PCI, ttys and character devices as such, failed starts (which leave `open` set), `qp_stop`, or rings of depth 0.
- The modem: it completes only descriptors it was given, with at most a page of data, and takes messages in order. The device's error flag may be set at any time and is never cleared.
- Concurrency below a step: each callback or locked section of the driver is one atomic step, and so is each action of a script (among them the read-then-remove of a stamp). Only the Rx poll loop is cut finer, into copy, re-post and advance.
- RingDevice.TdRingDevice.TtyPoll: runs without the modem completing more descriptors meanwhile; `RxRing` has the interleaving, and `RingDevice.TurnIsThreeSteps` ties a turn of the loop to it.
- NetReceive.PollFrames: runs without the modem completing more descriptors meanwhile; `NetReceive.DownlinkInAnyRun` has the interleavings.
- MuxDecode.HandleFrame: a frame that points outside its page is reported as such and not followed into other memory; a failed buffer allocation is not modelled; the packet count is that of a 64-bit kernel.
- MuxDaemon.Daemon.HandleMuxFrame: stops at a bound outside its page, where the C code would write other memory.
- MuxDaemon.Daemon.constructor: frame sizes below 16 are not modelled, in which not even the header that is stored in the buffer would fit.
- FrameBuffer.MuxFrameBuffer.constructor: the user-space buffer is rounded up to 4 bytes, since the cursor may be aligned past an odd size; the bytes beyond the maximum size are never written.
- NetDevice.XmmNet.BuildFrame: the kernel's `int` sequence counter is unbounded here, and cut to 16 bits when it is written into a header, as in the code.
- UserMux.Batching: the clock, `select` and the tun device only decide which step comes next, and a failed `write` to the mux device is only printed by the code and not modelled. `UserMux.SoundIff` has the frame sizes it leaves aside.
- PyMuxObjects.MuxPacket.Finish: called after at least one tag was appended, as every caller does. The control frame that `XMMMux` writes at its start and the limit of 8192 bytes on a read are not modelled.
- RpcCodec.Payload: the bit pattern of a `struct` float (letters f and e), and the exception for one that does not fit, are a parameter; the elements of a string are whole numbers. The 8-byte types raise as on a 64-bit Linux.
- RpcObjects.XMMRPC.Execute: a short write is only printed by the code and not modelled; the tables of call and indication names are not either, so ids are numbers and one id stands for the attach indication.
- Trace.Deframer.HandleSegment: what `handle_packet` does after unpacking the first two octets (filtering, `decode_printf`, logging) is not modelled.
- SelfHeal.HardIntent: the clock never goes back; the files hold what was last written (an unreadable or malformed stamp is not modelled); child processes that inherit the lock's descriptor are not modelled.
- SelfHealScript.Ensure: `healthy`, each `hard_requested`, and each bring-up with its check are the environment's answers; timeouts, stray processes and log lines are left out. In `SelfHeal` the request comes from the shared stamp instead.
- Losslessness of `cdev_write`: the code does not provide it, since it reports the full size after a cut or a full ring.
- FCC unlock, `get_ip`, APN argument lists and the id tables of the RPC tools, network configuration, D-Bus, desktop, installer, systemd, udev and polkit files: fixed tables, thin sequences or user interface.
