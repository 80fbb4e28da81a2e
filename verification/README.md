# Proofs about the IEC 60870-5-104 links, the message queue and the poll table

This project models three parts of the library and proves what they keep over whole runs.

**The APCI link layer** (`lib/elap.c`, `lib/xlap.c`): a sliding-window sender and an in-order receiver
with counters modulo `n`, an out queue and an ack queue, the timers T1, T2 and T3, the start/stop
procedure, the frame codec with the long 0x69 extension, and the reassembly of frames from a byte stream.
It is modelled on three levels.

* One link. `LinkSpec` says what each operation does to a link and what it writes to the socket; class
  `LapLinks.LapLink` does it in place and each method is proved equal to its `LinkSpec` function.
  `LinkProps` has the invariant, `LinkRuns` the theorems about every run of one link, `Ledger` and
  `Restart` those about data over many connections, `Polling` those about the poll mode, `Watchdog`, `AckWatch`
  and `Silence` those about the timers, `WaitAck` the wait-ack list of a context.
* Two links. `Channel`, `LinkActs` and `Duplex` join two links by lossless FIFO channels; `StartStop` adds
  the start/stop cycle, `Starting` shows which pairs of links can be started, `Progress` that
  everything then gets through if w <= k, `Deadlock` that it need not otherwise, and
  `Stopping` that a stop completes. `Lossy` has the same links over channels that lose frames.
* Bytes. `Codec` builds and decodes frames, `Parse`, `RxBuffers` and `Streams` cut them out of the receive
  buffer, and `Wire` puts the path together: it is the FIFO channel that `Duplex` assumes.

**The poll table** (`lib/epoll.c`): `Serials`, `Walk` and `Epoll` have serial numbers, registrations and
the round-robin walk; `ExtQueue` is the queue by which other threads send on a link (`lib/elap.c`).

**The message queue** (`lib/message.c`): `MsgTime` has the deadlines, `TimerList` the insertion point,
`MsgSpec` the operations on the two lists, `MsgProps` the theorems about every run, `MsgSteps` and
`MsgQueue` the in-place form.

Names follow the source. Clause 5 of IEC 60870-5-104 is the background of the link layer; where the code
differs from it (modulus 32767 by default, an extra byte in S frames, start byte 0x69) the code is modelled.

## Where the code does not do what one might expect

Each of these is proved, with the exact condition under which the expected behaviour holds.

* The acceptance test for N(R) reads a number at or above the modulus modulo `n`: with the default modulus
  it takes 32767 for 0 (`SeqNum.OkNrReads`, `SeqNum.OkNrExactly`). The disabled loop form of the test does
  not. A received frame breaks the link invariant exactly when such a number is read into the window
  (`LinkRuns.ReceiveKeepsInvExactly`).
* A link that keeps its out queue over a disconnect waits for POLLIN only after the next connect and start,
  so data left in the queue is not sent until something else sets POLLOUT (`Restart.LostWakeup`). This can
  happen on exactly these links (`Restart.LostWakeupExactly`).
* In long mode, a read that ends one byte into a 0x69 frame leaves that byte where it is, and the next read
  is appended to the wrong bytes (`Streams.StrandedStartByte`). `Streams.ReadStep` has the exact condition;
  in short mode every read is good (`Streams.ShortModeCleanReads`).
* A timer is inserted in front of the last timer that is not later, not behind it, so the timer list is not
  sorted (`TimerList.InsertUnsorted`, `TimerList.InsertSortedExactly`); retrieval does not rely on it.
* A negative delay can leave a deadline with negative nanoseconds (`MsgTime.DeadlineNormalExactly`), which
  compares wrongly with some times (`MsgTime.CmpTimeExactly`): exactly such timers can fire late, by less
  than a second (`MsgTime.LateExactly`, `MsgTime.DueExactly`).
* Without timers, an end whose k is less than the w of its peer can get stuck with data waiting
  (`Deadlock.StuckExactly`); with w <= k it cannot (`Duplex.NoWindowDeadlock`).
* A test frame that is out is supervised by the timer of all act frames, which any confirmation stops. If the
  link confirms a frame of its peer while it waits for its own, and then receives nothing more, the timers
  never end the connection (`Silence.HangsForEver`); `Silence.SilentLinkEndsExactly` has the exact condition.
* A link that leaves the started state with POLLOUT requested keeps asking for it and is woken in vain, without
  end (`Polling.StoppingSpins`), where xlap asks for POLLIN; `Polling.AsksInVainExactly` has the condition.
* Two masters that both start on their own never get started (`Starting.StartsExactly`).
* The walk counter wraps at 2^32; a walk across the wrap can examine a slot twice, if it is longer than the
  remainder of 2^32 by the table size (`Walk.ExaminesTwiceExactly`). The percentage given to a walk has no
  effect on a table of 100 slots or more, although its comment calls it the share to visit
  (`Epoll.EpollTable.PercentageIgnoredExactly`); the tables grow in steps of 1000.

## Model

| member | source | states |
|---|---|---|
| SeqNum.OkNrIsWindow | lib/elap.c:367-371 | for reduced N(R), the closed-form test accepts exactly V(A), V(A)+1, ..., V(S) modulo n |
| SeqNum.OkNrReads | lib/elap.c:367-371 | for any N(R), the closed form decides whether N(R) modulo n is in the window |
| SeqNum.OkNrExactly | lib/elap.c:367-371 | for any N(R), the closed form agrees with window membership iff N(R) < n or N(R) modulo n is outside the window |
| SeqNum.OkNrAcceptsUnreduced | lib/elap.c:367-371 | counterexample: 32767 passes for 0 with modulus 32767 |
| SeqNum.OkNrByWalking | lib/elap.c:372-387 | the loop form terminates and decides window membership for every N(R); for reduced ones it equals the closed form |
| SeqNum.DistExact | lib/xlap.c:1507-1514 | within one period, the reduced difference is the difference of the unbounded counters, however often they wrapped |
| LinkProps.WindowInvariant | lib/elap.c:903-956 | ack-queue length = (vs - va) mod n <= k, its i-th frame carries NS (va + i) mod n, empty iff vs = va, window closed iff it has k frames |
| LinkProps.AckPops | lib/elap.c:815-848 | an accepted reduced N(R) pops exactly (N(R) - va) mod n messages |
| LinkProps.InvAcknowledge | lib/elap.c:1669-1671 | popping and moving V(A) keeps the window, numbering and conservation invariant |
| LinkProps.InvRunOut | lib/elap.c:903-966 | sending keeps the invariant, and the readjustment of V(S) never changes anything |
| LinkProps.InvTakeI | lib/elap.c:1731-1750 | after an I frame in sequence fewer than w frames are unconfirmed, and V(S) etc. stay in step with the totals |
| LinkRuns.ReachableInv | lib/elap.c:903-1035 | every link reachable by any sequence of calls, events, frames with N(R) < n and ticks satisfies the invariant, accepted = acked ++ ack queue ++ out queue included |
| LinkRuns.ReceiveKeepsInvExactly | lib/elap.c:1659-1750 | for any peer: a received N(R) keeps the invariant iff it is below n or, modulo n, outside the window |
| LinkRuns.NoLostWakeup | lib/elap.c:918-966 | in every reachable state of a fully reset link the incrementally kept poll mode has POLLOUT whenever data waits and the window is open, and so whenever xlap would compute POLLOUT |
| Restart.RestartedAwakeExactly | lib/elap.c:1443-1456 | a link that keeps its out queue over a disconnect, started again, asks for POLLIN only, while xlap would ask for POLLOUT iff data is left: it is awake iff the queue is empty |
| Restart.LostWakeup | lib/elap.c:1443-1456 | for every such configuration, a reachable state that is started, has data and an open window, and does not ask for POLLOUT |
| Restart.LostWakeupExactly | lib/elap.c:918-966 | a wake-up can be lost in some run iff the link keeps its out queue over a disconnect |
| Polling.ModeAfterSending | lib/elap.c:929-966 | sending leaves POLLOUT requested iff data is left; it is then needed unless the window has just closed |
| Polling.StopsAsking | lib/elap.c:925-966 | where xlap would not ask for POLLOUT, a started link that is woken writes nothing and asks for POLLIN only, as xlap does |
| Polling.RecomputedExactly | lib/xlap.c:842-877 | the recomputed mode of a connected link asks for POLLOUT iff a wake-up writes something |
| Polling.UnconnectedMode | lib/elap.c:700-712 | a fully reset link without a connection asks for POLLOUT, as the recomputed mode does |
| Polling.AsksInVainExactly | lib/elap.c:903-966 | a connected link that is woken writes nothing and asks to be woken again iff it is not started |
| Polling.WokenInVainOnce | lib/elap.c:903-966 | without a put or a received frame a started link is woken to write in vain at most once, over any run of wake-ups, requests and ticks |
| Polling.StoppingSpins | lib/elap.c:913-914 | for every configuration, a reachable link waiting for its stop to be confirmed that asks for POLLOUT and writes nothing however often it is woken |
| LinkRuns.AckDelayBounded | lib/elap.c:1786-1804 | in every run with a positive monotone clock, a tick that keeps the link leaves no unconfirmed data frame older than t2 |
| Watchdog.TickExactly | lib/elap.c:1786-1815 | for every run with a clock, from the frames written and received: a tick ends the connection iff an act frame has been neither answered nor followed by any confirmation for more than t1; else it writes an S frame iff data was handed up more than t2 ago and no tick has confirmed since; else a TESTFRact iff nothing was received within t3 and no test frame is out; else nothing |
| Watchdog.TickSupervises | lib/elap.c:1786-1815 | after a tick that keeps the connection no act frame is open for more than t1, and unless the tick confirmed data, something was received within t3 or a test frame is out |
| AckWatch.AckTickExactly | lib/xlap.c:689-717 | for every run with a clock: the check of the ack queue ends the connection iff some I frame written t1 ago or earlier has not been acknowledged |
| Silence.SilentLinkEndsExactly | lib/elap.c:1786-1815 | a link that receives nothing more is ended by three spaced ticks, iff it is not waiting for the answer to a test frame with every act frame it wrote settled by some confirmation |
| Silence.HangsForEver | lib/elap.c:443-449 | for every configuration, a reachable connected link that no number of ticks ends |
| Ledger.AcceptedIsAccountedFor | lib/xlap.c:776-835 | over any number of connections: all data accepted, in order, is settled data (acked, then reported lost, then dropped, connection by connection), then acked, ack queue and out queue; losses reported are exactly the ack queues; a link without full reset drops nothing |
| Ledger.SettleBalances | lib/xlap.c:529-618 | a disconnect settles exactly what it removes from the link |
| Restart.ResentFromZero | lib/xlap.c:735-774 | a link that keeps its out queue, restarted as slave or master, on its own or on request, sends it in order with NS counting from 0 once it writes |
| LapLinks.LapLink.SendFrameU | lib/elap.c:394-466 | in place = the specified effect: act/con frames arm and clear T1, a test frame arms its own timer |
| LapLinks.LapLink.SendFrameS | lib/elap.c:473-508 | writes V(R) and makes it the last number told to the peer; nothing when not connected |
| LapLinks.LapLink.SendFrameI | lib/elap.c:514-579 | writes one I frame with V(S) and V(R) iff the link is connected, the window open and the socket takes it; nothing else changes |
| LapLinks.LapLink.RunAckQueue | lib/elap.c:815-848 | the loop pops the messages before the first one numbered N(R), in order, and logs them as acknowledged |
| LapLinks.LapLink.RunOutQueue | lib/elap.c:903-966 | the loop moves exactly min(out queue, open window, successful writes) messages, numbered from V(S), to wire and ack queue, advances V(S) by as many modulo n, and leaves the right poll mode |
| LapLinks.LapLink.PutOutQueue | lib/elap.c:2352-2384 | only a started link queues data, and asks for POLLOUT |
| LapLinks.LapLink.EventMasterSlave | lib/elap.c:2160-2278 | the state changes and replies of the start/stop procedure, case by case |
| LapLinks.LapLink.IncomingFrame | lib/elap.c:1581-1753 | U, S and I frames: acknowledge, refuse bad N(R) and N(S), count, confirm every w-th frame, hand up; the invariant survives iff N(R) is reduced or stands for a number outside the window |
| LapLinks.LapLink.IncomingBytes | lib/elap.c:1512-1753 | the bytes of a delimited frame act as the frame they decode to; a frame of the wrong size or format only restarts T3 |
| LapLinks.LapLink.ResetLink | lib/elap.c:621-705 | resets counters, timers and queues; keeps the out queue when asked to |
| LapLinks.LapLink.Disconnected | lib/elap.c:969-1035 | reports each message of the ack queue lost, once and in order, and resets |
| LapLinks.LapLink.TimerT1T2T3 | lib/elap.c:1786-1815 | T1 disconnects, T2 confirms, T3 tests, with this priority; Watchdog.TickExactly says when |
| LapLinks.LapLink.TimerAckQueue | lib/xlap.c:689-717 | disconnects iff some unacknowledged message has waited t1 or longer |
| LapLinks.LapLink.LapRequest | lib/xlap.c:842-877 | the poll mode recomputed before every poll |
| WaitAck.Context.AddWaitAckList | lib/elap.c:598-608 | makes the index exact again after sending |
| WaitAck.Context.DelWaitAckList | lib/elap.c:610-619 | takes a link off the index if its ack queue is empty, or unconditionally before that queue is freed; no other link is touched, and the index is exact once the queue is empty |
| WaitAck.Context.RunOutQueue | lib/elap.c:944-950 | sending keeps the wait-ack list the exact, duplicate-free index of the links with unacknowledged messages |
| WaitAck.Context.IncomingFrame | lib/elap.c:815-848 | so does receiving any frame |
| WaitAck.Context.Disconnected | lib/elap.c:660-668 | so does a disconnect |
| WaitAck.Context.ScanWaitAck | lib/elap.c:886-901 | walking the short list finds each link of the full list with an overdue message, and no other, once |
| Duplex.ReliableDelivery | lib/xlap.c:1429-1520 | two links over lossless FIFO channels, any run, any number of wraparounds and reconnections: what an end hands up is a prefix of what the other accepted, no frame was or is about to be refused |
| Lossy.DeliveryInSequence | lib/xlap.c:1429-1520 | the same two links over channels that may lose any frame at any time, any run: what an end hands up is still a prefix of what the other accepted, and no N(R) is ever refused |
| LinkActs.HandedUpInSequence | lib/elap.c:1707-1750 | any I frame with N(R) < n, on any link satisfying the invariant: it is handed up iff N(R) is in the window and N(S) is the number of frames handed up modulo n; else V(R) stays, the S frame with V(R) is the only answer, and the matching error is counted |
| LinkActs.AcknowledgedInWindow | lib/elap.c:1642-1679 | any S frame with N(R) < n: in the window it acknowledges (N(R) - va) mod n messages, else it is counted and answered with V(R), and nothing else changes |
| Refusals.ErrorsCounted | lib/elap.c:1659-1735 | in every run with N(R) < n the two error counters are the numbers of frames refused since the last full reset, for an N(R) outside the window and for an N(S) out of sequence |
| LinkActs.ConfirmsExactly | lib/elap.c:2178-2273 | which received frames are confirmed, for each of the three confirmations; STOPDTcon is written with everything acknowledged, but for an I frame in sequence that reaches a link in PENDING_UNCONFD |
| Duplex.NoWindowDeadlock | lib/xlap.c:735-774 | with both channels empty everything sent is delivered, fewer than w frames are unacknowledged, and if w <= k a started end with data sends |
| Duplex.StepKeeps | lib/xlap.c:1507-1514 | every step of the two-link system keeps both directions consistent |
| Deadlock.StuckExactly | lib/xlap.c:735-774 | for any two compatible links, some run leaves end a started with data, nothing in flight and nothing it may send, iff its k is less than the w of its peer and the two are not both masters with autostart |
| Deadlock.OtherStuckExactly | lib/xlap.c:735-774 | the same for end b |
| LinkActs.LocalActs | lib/xlap.c:735-774 | every local operation writes data that continues the numbering and acknowledges V(R) only |
| LinkActs.ReceiveActs | lib/xlap.c:1429-1520 | taking in an expected frame advances acknowledged and handed-up totals exactly as the frame says |
| StartStop.JointStartStop | lib/elap.c:2191-2273 | for a requesting master and a slave, states and frames in flight stay in the cycle; no I frame reaches a stopped end or a slave waiting for acknowledgements; STOPDTcon is sent only with vs = va and an empty ack queue |
| StartStop.StepKeepsCycle | lib/elap.c:2160-2278 | every step keeps the pair of states and the channels at one stage of the cycle |
| Stopping.DeferredWithReason | lib/elap.c:2230-2249 | in every reachable state of such a pair, a slave in PENDING_UNCONFD has unacknowledged data |
| Stopping.StopCompletesInTime | lib/elap.c:2238-2273 | from every reachable state with the master in PENDING_STOPPED and time left on T1, deliveries now and at most one T2 tick of the master, the clock going forward, leave both ends stopped and nothing in flight |
| Stopping.StopCompletes | lib/elap.c:2238-2273 | if t2 < t1, from every such state deliveries and at most one tick, at some time, leave both ends stopped and nothing in flight |
| Stopping.RequestHasTime | lib/elap.c:2258-2266 | if t2 < t1 and no act frame is out, a stop requested now has time left |
| Progress.EverythingGetsThrough | lib/xlap.c:735-774 | from any reachable state with both ends started and w <= k, a finite run without timers delivers everything accepted, in both directions |
| Starting.StartCompletes | lib/xlap.c:1913-2029 | two compatible links that are not both masters with autostart can come to be both started, with nothing in flight |
| Starting.StartsExactly | lib/xlap.c:1913-2029 | both ends are started in some run iff they are not both masters with autostart |
| Starting.NeverStarted | lib/xlap.c:1913-2029 | two masters with autostart wait for each other in every reachable state |
| Progress.Flush | lib/xlap.c:1312-1522 | taking in what is in flight, and the answers to it, comes to an end and keeps both queues |
| Codec.SetFrameU | lib/xlap.c:196-206 | builds the bytes of a U frame and touches nothing else |
| Codec.SetFrameS | lib/xlap.c:208-225 | builds the bytes of an S frame and touches nothing else |
| Codec.SetFrameAsdu | lib/xlap.c:250-278 | builds a short or long I frame around the data and touches nothing behind it |
| Codec.SetFrameI | lib/xlap.c:227-248 | rewrites the two numbers of a built frame in place |
| Codec.RenumberedFrame | lib/xlap.c:227-248 | renumbering yields the frame built with the new numbers; user data and spare bytes stay |
| Codec.DecodeBytesI | lib/xlap.c:1321-1470 | an I frame decodes to an I frame with its numbers and data, never to S or U, iff its length fits the size field; else it is dropped |
| Codec.DecodeBytesS | lib/xlap.c:1321-1470 | an S frame decodes to itself with N(R) modulo 32768, never to U or I |
| Codec.DecodedI | lib/elap.c:1681-1705 | bytes of any origin are taken for an I frame only if they are of the right size and carry exactly the number fields the builder writes for its numbers, followed by its data |
| Codec.DroppedExactly | lib/elap.c:1545-1577 | for any bytes: dropped iff without a start byte of the mode or not of the announced size; told apart as runts iff the control field is short |
| Codec.MalformedExactly | lib/elap.c:1681-1685 | a frame of the right size that is neither U nor S is reported as malformed iff the low bit of a number field is set, and is an I frame otherwise |
| Codec.RoundTrip | lib/xlap.c:196-320 | decode(encode f) = f iff the numbers have 15 bits and the data fits |
| Codec.EncodeInjective | lib/xlap.c:196-278 | different frames have different bytes |
| Parse.ParseExtend | lib/xlap.c:1032-1088 | parsing a longer stream resumes exactly at the leftover, for any bytes |
| RxBuffers.RxBuffer.Reserve | lib/xlap.c:879-899 | the allocation is 0, 16384 or 32768, a read always fits, no unsigned short wraps |
| RxBuffers.RxBuffer.SearchFrame | lib/xlap.c:901-972 | finds the first frame of the unread bytes, a bad start, or that more bytes are needed, for any buffer contents |
| RxBuffers.RxBuffer.CutFrames | lib/xlap.c:1032-1088 | the frame loop ends, hands on the frames of the one-pass parse, and keeps or strands the leftover as described by Leftover |
| RxBuffers.RxBuffer.ReadSocket | lib/xlap.c:974-1090 | one read of arbitrary bytes acts as specified, within the buffer, and leaves fewer than FRAME_MAX bytes |
| Streams.ParsePartition | lib/xlap.c:1032-1088 | frames and leftover together are the stream, for any bytes |
| Streams.ParseWhole | lib/xlap.c:901-972 | the one-pass parse of concatenated well-formed frames is these frames |
| Streams.GarbageCloses | lib/xlap.c:915-929 | a byte that is no start byte where a frame should begin closes the connection, after the frames in front of it were handed on |
| Streams.EmptyFrameSkipped | lib/xlap.c:953-964 | a frame of size 0 is cut out, and dropped, without touching what follows |
| Streams.ReadStep | lib/xlap.c:1032-1088 | a read keeps the buffer in step with the one-pass parse iff it is clean |
| Streams.ChunkingIrrelevant | lib/xlap.c:974-1090 | any way of cutting a stream of frames into clean reads yields the frames and the leftover of the one-pass parse |
| Streams.ShortModeCleanReads | lib/xlap.c:915-945 | in short mode all reads are clean |
| Streams.StrandedStartByte | lib/xlap.c:932-945 | counterexample in long mode: the leftover 0x69 is lost and an old 0x68 takes its place |
| Wire.WireTransparent | lib/xlap.c:974-1090 | frames built, written, read in clean pieces, cut out and decoded are the frames sent, in order |
| Wire.InFlightTransportable | lib/xlap.c:250-278 | everything two coupled links ever have in flight satisfies the conditions of WireTransparent, if the users' data fits |
| Serials.SerialsRepeatExactly | lib/epoll.c:136-156 | serial numbers repeat with the period 2^32 - 1 and never earlier |
| Serials.SerialCounter.NextSerial | lib/epoll.c:136-156 | the counter that skips 0 hands out the next serial number |
| Epoll.EpollTable.Add | lib/epoll.c:196-265 | error cases; a successful registration gets a fresh serial number and no other slot changes, even if the table grows |
| Epoll.EpollTable.Handle | lib/epoll.c:273-286 | the registration of a descriptor, if any |
| Epoll.EpollTable.Serial | lib/epoll.c:293-306 | its serial number, or 0 |
| Epoll.EpollTable.SetEvt | lib/epoll.c:316-343 | error cases; changes the mode of one registration only |
| Epoll.EpollTable.Rmv | lib/epoll.c:410-436 | error cases; removes one registration only |
| Epoll.EpollTable.Walk | lib/epoll.c:566-613 | one walk visits the eligible slots it examines, in order, and moves the counter past them |
| Walk.WalksAreFair | lib/epoll.c:566-613 | with an unchanged table, m walks of at most max visits reach every eligible handle if m * max is at least the number of these handles |
| Epoll.EpollTable.PercentageIgnoredExactly | lib/epoll.c:581-591 | the visits of a walk do not depend on the percentage iff the table has 100 slots or more |
| Epoll.EpollTable.Walks | lib/epoll.c:566-613 | m calls of the walk, the counter wrapping as it may, do together what m pure walks do |
| Epoll.EpollTable.FairWalks | lib/epoll.c:566-613 | before the counter wraps: after m calls of the walk every registered handle has been visited, if m times the visits of a walk is at least the number of handles |
| Walk.SlotTwiceExactly | lib/epoll.c:592-595 | among the next e slots, e at most the table size, one comes twice iff the counter wraps within them and 0 < 2^32 mod table size < e |
| Walk.ExaminesTwiceExactly | lib/epoll.c:566-613 | the same for the slots that one walk with its limit of visits examines |
| ExtQueue.ExtContext.Register | lib/elap.c:2018-2021 | a link gets a serial number that was never given out before |
| ExtQueue.ExtContext.TargetIsOwner | lib/elap.c:2470-2500 | a message can only go to the link that was given its serial number, and only while it is registered under it, even if the descriptor was closed and reused |
| ExtQueue.ExtContext.OwnerIsTarget | lib/elap.c:2470-2500 | as long as that link is registered, its messages do go to it |
| ExtQueue.ExtContext.PutOutQueueExt | lib/elap.c:2400-2428 | posting appends to the shared queue and changes no link |
| ExtQueue.ExtContext.DispatchQueueExt | lib/elap.c:2445-2534 | dispatched + errors + left = count at lock time; each link takes its own messages, in order and unchanged; at most maxcnt are dispatched |
| ExtQueue.PutAllQueues | lib/elap.c:2352-2384 | a started link queues all of it in order, any other drops it |
| MsgTime.Deadline | lib/message.c:235-243 | the deadline is exactly now plus the delay, also for negative delays |
| MsgTime.DeadlineNormalExactly | lib/message.c:235-243 | it is normalised iff the millisecond part does not reach below the second; always for delays >= 0 |
| MsgTime.CmpTimeExactly | lib/message.c:337-340 | for all times a deadline can be, the sign of the comparison is the order of total nanoseconds iff neither time is one second ahead by its seconds and a second or more behind by its nanoseconds |
| MsgTime.CmpTimeSign | lib/message.c:337-340 | on normalised times the sign is always the order of total nanoseconds |
| MsgTime.CmpTimeUnnormalised | lib/message.c:337-340 | counterexample without normalisation |
| MsgTime.DueExactly | lib/message.c:472-474 | for every deadline that can be computed: a timer counts as expired iff its deadline has passed and the comparison is not misled, or it is within 550 microseconds in the same second; it is never late by a second |
| MsgTime.LateExactly | lib/message.c:472-474 | a deadline can be missed for a while iff its nanoseconds are negative |
| TimerList.InsertSortedExactly | lib/message.c:373-397 | insertion keeps a sorted timer list sorted iff no timer is later than the new one or the last one not later has the same deadline |
| TimerList.InsertUnsorted | lib/message.c:373-397 | counterexample: 2 inserted into 1, 3 gives 2, 1, 3 |
| MsgProps.TimerGetExactly | lib/message.c:462-497 | a timer get returns nothing iff no plain timer has expired; a plain timer with end <= now is passed over only if its nanoseconds are negative and mislead the comparison, for less than a second; what is returned is at most 550 microseconds early |
| MsgProps.BothGetExactly | lib/message.c:458-506 | a get of both kinds returns nothing iff no message is queued and nothing in the timer list has expired |
| MsgProps.BothGetPrefersTimers | lib/message.c:458-506 | a get of both kinds returns an expired plain timer if there is one, else the first plain message, else a delayed message that has just expired |
| MsgProps.MsgGetExactly | lib/message.c:497-506 | a get of messages takes the first plain one, if any, and leaves the timers alone |
| MsgProps.ScanFiresFirst | lib/message.c:470-494 | the first expired plain timer is returned and all behind it stay, whatever the order of the list |
| MsgProps.PromotedInOrder | lib/message.c:486-490 | expired delayed messages go behind the plain ones, in list order, under new numbers |
| MsgProps.QueuedReturnedOrFreed | lib/message.c:343-535 | after any mix of add, get, remove and cancel, a message added once is queued, returned or freed, exactly one of these, once |
| MsgProps.PlainInSerialOrder | lib/message.c:343-535 | plain messages, promoted ones included, leave and wait in the order of their last insertions; before the 2^32nd insertion this is the order of their serial numbers |
| MsgProps.GetsDrain | lib/message.c:519-535 | once all have expired, as many gets as there are messages hand out each of them and leave the queue empty |
| MsgProps.AddSortedExactly | lib/message.c:353-397 | adding a timer keeps a sorted timer list sorted iff no timer is later or the last one not later has the same deadline |
| MsgProps.CancelledIsDue | lib/message.c:651-655 | a cancelled delayed message has expired at every time from then on, and nothing else in the queue has changed |
| MsgProps.CancelledPromoted | lib/message.c:651-655 | a later get of timers that fires no plain timer has made it a plain message |
| MsgProps.CancelledHandedOut | lib/message.c:651-655 | as many later gets of both kinds as there are messages hand it out |
| MsgQueue.IqMsg.MsgAdd | lib/message.c:343-409 | in place = the specified insertion, flags and counters right, a fresh serial number |
| MsgQueue.IqMsg.TimerPosition | lib/message.c:373-397 | the backward search finds the insertion point |
| MsgQueue.IqMsg.ScanTimerList | lib/message.c:462-495 | the scan that removes and promotes while it walks the list does what the one-pass specification says |
| MsgQueue.IqMsg.MsgGet | lib/message.c:458-506 | in place = the specified get in all three modes |
| MsgQueue.IqMsg.GetArray | lib/message.c:519-535 | gets until the first that finds nothing, in order |
| MsgQueue.IqMsg.ImsgAdd | lib/message.c:411-424 | keeps the queue equal to the result of all operations so far; -1 for no message |
| MsgQueue.IqMsg.ImsgAddDelayed | lib/message.c:426-454 | the same for a delayed message, with its new deadline |
| MsgQueue.IqMsg.ImsgRemove | lib/message.c:683-723 | frees the message if it is in the list its flags name, and says whether it was |
| MsgQueue.IqMsg.RemoveToType | lib/message.c:725-761 | frees exactly the messages for the object, class and type, -1 standing for any |
| MsgQueue.IqMsg.RemoveAll | lib/message.c:768-791 | frees everything and counts it |
| MsgQueue.IqMsg.CancelDelay | lib/message.c:651-655 | sets the deadline of a delayed message to now, in place, and changes nothing else |

## Left out

- Sockets, DNS, accept, connect, bind and epoll_ctl: they appear as events and flags. A fresh descriptor and its registration succeed in `ExtContext.Register`, which needs fd < table size + 1000.
- Writes are all or nothing: `RunOut` takes the number of I frames that the socket accepts; writes of S and U frames succeed while connected. A short write that leaves part of a frame on the wire is not modelled.
- User callbacks are ghost logs and do not re-enter the link; memory allocation succeeds.
- LapLinks.LapLink.TimerAckQueue: models the form of lib/xlap.c, because the guards in lib/elap.c:856-860 require a link to be client and server at once and so never let it run.
- LapLinks.LapLink: the four counters, the timers, the error counts and the log are grouped in records, and the queues are sequences of values instead of linked messages; statistics other than refused N(R) and N(S) are not kept.
- LapLinks.LapLink.Disconnected: the source also unlinks and frees a server link; here that is a full reset.
- LapLinks.LapLink.LapRequest: for links with a connection; a listening socket always asks for POLLIN.
- LapLinks.LapLink.IncomingBytes: not for runts, frames with a size field of 1 to 3 bytes, on which the source reads number fields behind the frame.
- Duplex: a reconnection resets both ends and empties both channels in one step, and peers number their acknowledgements modulo n.
- Stopping.StopCompletes: the tick may have to come earlier than the last step, if T1 has no time left; Stopping.StopCompletesInTime is the form with a clock.
- StartStop.JointStartStop: for one master that makes the start and stop requests and a slave that makes none.
- Progress.EverythingGetsThrough: starts from states without start or stop frames in flight.
- RxBuffers.RxBuffer: has one spare cell behind the allocation for the look at the byte after a lone start byte; this byte never matters for well-formed frames.
- Streams.ChunkingIrrelevant: excludes reads that end one byte into a 0x69 frame after a 0x68 frame, where the code does not agree with the one-pass parse.
- Epoll.EpollTable.Walk: callbacks that return a negative number end a walk early in the source; here they return 0 or more. `rtl_epollHandle2` calls itself for ever and is not modelled.
- Epoll.EpollTable.Add: for descriptors less than 1000 beyond the table, as it grows by one step only.
- ExtQueue.ExtContext.Register: the same.
- Walk.WalksAreFair: before the walk counter wraps; so Epoll.EpollTable.FairWalks.
- ExtQueue: fewer than 2^32 registrations, and locked regions as single steps.
- MsgQueue.IqMsg.GetArray: returns the filled part of the array as a sequence; `rtl_imsgFastRemove` is `rtl_imsgRemove` without the search and is not modelled on its own.
- MsgQueue.IqMsg.MsgAdd: a message that is in the queue already must not be added again; the source relies on that as well. Its lists are linked through the messages and are sequences of messages here.
- Message data, blocking waits, the mutexes and the clock are not part of the model; the clock readings are parameters.
- LapForward, the listener, user timers, tracing, the B-tree, the hash table, the parsers and the remaining helpers are not part of the model; neither is rtllist.h, whose lists are sequences here.
