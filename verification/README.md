# A verified model of a CAN transport protocol

`can-tp.c` carries messages of up to 4095 bytes over classic CAN in eight-byte frames, following
ISO 15765-2:2016. A sender splits a message into a First Frame and numbered Consecutive Frames; a receiver
answers with Flow Control that tells the sender how many frames it may send in a row (BS), how far apart
(STmin), and when to wait. The two roles share no state: each keeps its own sequence number, byte index and
block counter, and the right bytes arrive only if these counters stay in step.

This project models both roles, the wire format, the parameter initialisation and the channel between the
roles, and proves what the protocol promises over every run.

## How it is laid out

| file | what it holds |
|---|---|
| `Types.dfy`, `Frames.dfy` | bytes, states, timers, outcomes; the eight-byte layout of SF, FF, CF and FC |
| `Segmentation.dfy` | segmentation and reassembly as pure functions on messages and frame sequences |
| `SenderSpec.dfy`, `Sender.dfy` | the sender as a state machine on values, and as a context whose callbacks update its fields |
| `ReceiverSpec.dfy`, `Receiver.dfy` | the same for the receiver, with the buffer as an array and the FC.WAIT loop |
| `Reception.dfy` | receptions each with the session layer's own answer: refusals, missing buffers, Single Frames |
| `ParamsSpec.dfy`, `Params.dfy` | the same for the parameter initialisation |
| `Protocol.dfy` | both roles, a FIFO channel each way, confirmations, timeouts: all interleavings, and safety |
| `Lockstep.dfy` | the joint invariant of runs without timeouts: counters, Flow Control owed and under way, exact counts |
| `Conservation.dfy` | where Flow Control goes in every run, timeouts included |
| `Completion.dfy` | termination, and exactly which transfers complete |
| `Drops.dfy` | what lost Consecutive Frames do to a reception |
| `SyncDriver.dfy` | a driver that confirms inside the transmit call: nested calls against the event machine |
| `Pacing.dfy` | the sender against a clock: separation times over whole runs |
| `Timing.dfy`, `Spacing.dfy`, `TimingBound.dfy` | both roles against one clock: wait frames, how far apart the sender's frames are, and exactly when N_Bs can expire |

Every callback appears twice. In `SenderContext`, `ReceiverContext` and `ParamsContext` it is a method that
changes fields and arrays step by step, as in the source; its contract says that the new state, the frames, the
reports and the deliveries are those of a function in the matching `...Spec` module. The theorems are about
these functions and the runs they make up.

## As written and as documented

The code accepts Flow Control only in the state after the First Frame (can-tp.c:720 and can-tp.c:728). After a full
block the sender is in another state, `CF_FC_WAIT`, which the header documents as waiting for Flow Control
(can-tp.h:113), but the guard does not let Flow Control in there. The model has this as a parameter, `wide`:

- `wide == false` is the code as written. `Completion.CompletionExact` shows that a transfer completes exactly
  if the receiver uses no blocks or the message fits one block; otherwise the sender is stuck after exactly
  one block (`Completion.StuckRuns`, `SenderSpec.StuckAfterBlock`), and not even a timer gets it out.
- `wide == true` is the documented behaviour, and every transfer without timeouts completes.

`Completion.SomeTransferSticks` exhibits a transfer that sticks: 20 bytes with blocks of one frame, accepted by
initialisation and by the session layer. Where a transfer completes (`Lockstep.Completes`: under the documented guard,
or as written without blocks or within one block), no Flow Control is dropped (`Lockstep.FlowControlCounts`), and the
timing results about Flow Control hold.

Safety (`Protocol.JointSafety`) and the sender's run properties hold for both.

Three more places where code and documentation or intention differ are kept as the code has them:

- A separation time of 901..999 us is rounded in `st_min_us` but its code byte is never written
  (`ParamsSpec.StMinRoundTrip` is an equivalence, `ParamsSpec.StMinGapKeepsOldCode`).
- The number of wait frames is stored in eight bits before it is compared with `wft_max`
  (`ParamsSpec.WaitsCoverStMin` is an equivalence; `ParamsSpec.WaitsWrapToNone` is an accepted configuration that asks for
  32 seconds of separation and gets none).
- The delivery callback takes an eight-bit length although its documentation says sixteen; the handed-over length is
  right exactly up to 255 bytes (`ReceiverSpec.SegmentThenReceive`), while the buffer and `rcvr.len` are right always.

## What the world consists of

`Protocol.World` joins one sending and one receiving context. Its steps are: send, link-layer confirmation, end of
the STmin sleep inside the confirm handler, delivery of the next frame to the receiver, one blocking Flow Control
send by the receiver's running handler, arrival of Flow Control at the sender, end of the sender's wait for a state
change (with a recheck, or giving the frame up), and expiry of the sender's timer. Any enabled step may come next.
The receiver's handler computes its Flow Control at delivery and emits it frame by frame, so that confirmations
and receptions fall between its blocking sends; it takes no further frame until it is done. A Flow Control frame that
arrives in the wrong state is held, as the source's receiving thread holds it while it waits for a state change.

## Model

| member | source | states |
|---|---|---|
| `Frames.NibblesIndependent` | can-tp.h:135-142 | the type nibble and the low nibble of byte 0 never disturb each other, in either order of writing |
| `Frames.WireLayout` | can-tp.h:45-56 | the bytes of every frame by number: type in the high nibble, length, sequence number or flow status in the low one, all other bytes in place |
| `Frames.WireTypes` | can-tp.h:45-56 | each value of byte 0 is read as the type Table 8 gives it: 0x00 SF, 0x10 FF, 0x20 CF, 0x30 FC, from 0x40 on none |
| `Frames.DecodeEncode` | can-tp.h:125-164 | every SF, FF, CF, FC (and undefined type) with any field values decodes from its eight bytes to itself |
| `Frames.EncodeDecode` | can-tp.h:125-164 | decoding loses nothing but the unused bytes of Flow Control |
| `Frames.FfLenRoundTrip` | can-tp.h:236-245 | get after set gives the length modulo 4096, so the length itself exactly up to 4095, and leaves the frame type alone |
| `Frames.FfLenSet` | can-tp.h:236-240 | the setter changes the low nibble of byte 0 and byte 1 and nothing else |
| `Frames.FfLenGet` | can-tp.h:242-245 | the getter returns the twelve-bit length the bytes hold |
| `Frames.FfLenSetGet` | can-tp.h:236-245 | in place, the length got is the length set modulo 4096, and the frame type and the data bytes stay |
| `Segmentation.NumCf` | can-tp.c:109-116 | the number of Consecutive Frames is the least that covers the message after its first six bytes |
| `Segmentation.ReassembledChunks` | can-tp.c:505-523 | in any whole transfer every Consecutive Frame brings its own chunk of the reassembled message |
| `Segmentation.RoundTrip` | can-tp.c:803-857 | reassembling what was segmented gives the message back, for every length from 8 to 4095 |
| `Segmentation.SegmentBytes` | can-tp.c:835-844 | every byte of every frame of a segmented transfer, by number, in terms of the message |
| `Segmentation.SegmentReassemble` | can-tp.c:118-126 | conversely a whole transfer is the segmentation of its message exactly if its last frame is zero-padded |
| `SenderSpec.NextCfIsNextSegment` | can-tp.c:106-145 | the frame a CF-sending function builds from the context's counters is the next frame of the segmentation |
| `SenderSpec.SendEffect` | can-tp.c:820-856 | a send starts N_As and resets no counter; a Single Frame does not take the message over |
| `SenderSpec.ConfirmEffect` | can-tp.c:154-268 | no confirmation sends by itself or touches the message or the receiver's parameters; outside the sending states it does nothing |
| `SenderSpec.ConfirmFirst` | can-tp.c:160-184 | the First Frame's confirmation sets SN 1 and index 6 and waits with N_Bs |
| `SenderSpec.ConfirmCfEffect` | can-tp.c:193-247 | a Consecutive Frame's confirmation ends the message, or counts and ends the block exactly when the count reaches BS, in eight bits |
| `SenderSpec.SendCfEffect` | can-tp.c:106-145 | both CF-sending functions change byte index, timer and state, nothing else, and agree while bytes remain |
| `SenderSpec.DecodeStValues` | can-tp.c:439-447 | the separation time of every code byte, by number, and which codes are reserved |
| `SenderSpec.FlowControlEffect` | can-tp.c:434-462 | every handled Flow Control frame replaces BS and STmin; only status 0 with a valid code sends; overflow, undefined status and reserved codes emit nothing and leave state and counters alone |
| `SenderSpec.ExpireEffect` | can-tp.c:52-75 | an expiry stops the timer, touches no counter, and reports at most one outcome, by state |
| `SenderSpec.SignalsStateChanges` | can-tp.c:22-29 | a waiting thread is signalled exactly when an event changes the sender's state |
| `SenderSpec.StepKeepsGood` | can-tp.c:147-270 | every callback keeps counters and timer in order and ends a message in progress exactly with one report, the confirm handler not being entered during its own sleep |
| `SenderSpec.StepKeeps` | can-tp.c:147-326 | under the same condition, every callback keeps the emitted frames a prefix of the segmentation, whichever of the two CF-sending functions ran |
| `SenderSpec.ConfirmTracksExactly` | can-tp.c:193-222 | a confirmation keeps sequence number and index in step with the emitted frames if and only if it does not come during the STmin sleep |
| `SenderSpec.ReentryReportsTwice` | can-tp.c:193-268 | a handler entered again during its sleep before the last frame makes the one message be reported done twice |
| `SenderSpec.Run` | can-tp.c:147-326 | under the same condition, every history of events satisfies the sender's invariant: counters, timer discipline, prefix, conservation |
| `SenderSpec.OutcomesConserved` | can-tp.c:52-75 | in any order of confirmations outside the STmin sleep, Flow Control and expiries, sends = reports + (1 if a message is in progress) |
| `SenderSpec.EmitsSegmentation` | can-tp.c:803-857 | on any such history frame k emitted for the last message is the First Frame or carries SN k mod 16 and bytes 6+7(k-1) up to 6+7k, zero-padded |
| `SenderSpec.ExpiryReports` | can-tp.c:52-75 | one expiry leads to Idle with exactly one report from every state with a running timer, except after a full block, where nothing happens |
| `SenderSpec.WaitTimer` | can-tp.c:426-462 | over whole runs the wait after the First Frame is timed by N_Cs if the latest Flow Control was refused (reserved STmin, overflow, undefined status), else by N_Bs |
| `SenderSpec.StuckAfterBlock` | can-tp.c:714-737 | as written, no sequence of events moves a sender that waits after a full block, makes it send or makes it report |
| `SenderContext.Sender.constructor` | cantp_test/cantp_test.c:239 | a context starts zeroed, in the sender's invariant |
| `SenderContext.Sender.BuildNextCf` | can-tp.c:118-126 | the byte-copy loop yields the eight bytes of the next Consecutive Frame and advances the index by what it copied |
| `SenderContext.Sender.SendCfAfterCf` | can-tp.c:106-145 | the next frame is transmitted, N_As armed, nothing else changed |
| `SenderContext.Sender.SendCfAfterFc` | can-tp.c:272-326 | the same after Flow Control, with the exit for an exhausted message |
| `SenderContext.Sender.Send` | can-tp.c:803-858 | a message of up to seven bytes leaves as a Single Frame, a longer one as a First Frame with its length modulo 4096 |
| `SenderContext.Sender.CantxConfirm` | can-tp.c:147-270 | the whole confirm handler: report, wait, or sleep for STmin and send on, with the time slept |
| `SenderContext.Sender.RxFlowControlFrame` | can-tp.c:420-464 | BS and STmin are taken over, then the sender continues, waits again, or ignores the frame |
| `SenderContext.Sender.CanRxFlowControl` | can-tp.c:714-737 | Flow Control is handled at once in an accepting state and otherwise held without touching the sender |
| `SenderContext.Sender.WaitEnded` | can-tp.c:720-731 | a held frame is handled if the changed state accepts it, dropped if not or after the timeout |
| `SenderContext.Sender.TimerExpired` | can-tp.c:52-75 | the timer callback reports the timeout of the state it finds and returns to Idle, or does nothing |
| `ParamsContext.Params.RcvrParamsInit` | cantp_test/cantp_glue_lin.c:26-99 | initialisation leaves the specified fields, returns 0 exactly for the acceptable inputs and -1 otherwise, and leaves wait frames only together with blocks of one |
| `ParamsSpec.InitLimitsBlocks` | cantp_test/cantp_glue_lin.c:41-63 | from zeroed wait parameters, wait frames imply blocks of one frame, accepted or not |
| `ParamsSpec.InitAccepts` | cantp_test/cantp_glue_lin.c:32-98 | a configuration is accepted if and only if its time is 0, or 100 us to 127 ms, or longer with wait periods of at least 127 ms whose eight-bit number is within wft_max |
| `ParamsSpec.InitWrites` | cantp_test/cantp_glue_lin.c:32-85 | what every branch writes, accepted or not, by number; 901..949 becomes 900 and 950..999 becomes 1000 |
| `ParamsSpec.AcceptedWaits` | cantp_test/cantp_glue_lin.c:35-63 | an accepted configuration waits at most `wft_max` times, at least 127 ms each, and only for times above 127 ms |
| `ParamsSpec.InitCodeValid` | cantp_test/cantp_glue_lin.c:78-85 | the code byte written is always one the sender's decoder accepts |
| `ParamsSpec.StMinRoundTrip` | cantp_test/cantp_glue_lin.c:71-85 | the sender decodes the configured time rounded down to 100 us or 1 ms, exactly for times outside 901..999 us |
| `ParamsSpec.StMinGapKeepsOldCode` | cantp_test/cantp_glue_lin.c:71-77 | 901..999 us is accepted but leaves whatever code byte was there |
| `ParamsSpec.StMinMonotone` | can-tp.c:439-447 | longer configured times never decode to shorter ones |
| `ParamsSpec.WaitsCoverStMin` | cantp_test/cantp_glue_lin.c:56-63 | the wait frames together last the configured time, short by less than one period, exactly if their number fits eight bits |
| `ParamsSpec.WaitsWrapToNone` | cantp_test/cantp_glue_lin.c:56-63 | an accepted configuration of 256 wait periods gets no wait frame and a zero code byte |
| `ReceiverSpec.FlowControlBytes` | can-tp.c:387-393 | the bytes of the frame to continue and of the wait frame |
| `ReceiverSpec.FirstFrameRefused` | can-tp.c:350-358 | a refused First Frame leaves the receiver idle with its timer stopped, nothing sent, no counter touched |
| `ReceiverSpec.FirstFrameUnbuffered` | can-tp.c:360-365 | without a buffer the reception is left begun with N_Br running and nothing sent |
| `ReceiverSpec.FirstFrameAccepted` | can-tp.c:360-417 | acceptance stores six bytes and sends one frame to continue, without resetting sequence number or block count |
| `ReceiverSpec.ConsecutiveRefused` | can-tp.c:490-512 | a frame with another number or beyond the message's end only counts and stops the timer |
| `ReceiverSpec.AfterConsecutiveEffect` | can-tp.c:543-663 | a stored frame that is not the last is answered by the wait frames and then, exactly when the count reaches the block size, by the frame to continue |
| `ReceiverSpec.SingleFrameEffect` | can-tp.c:682-696 | a Single Frame in any state leads to RX_DONE, is delivered with its length, is not answered, and changes no other field |
| `ReceiverSpec.UnheardFrames` | can-tp.c:697-753 | First Frames outside Idle, Consecutive Frames outside FC_SENT, Flow Control and undefined types change nothing and cause nothing |
| `ReceiverSpec.FirstFrameStep` | can-tp.c:328-418 | an accepted First Frame leaves the six bytes, the length and one Flow Control frame that lets the sender continue |
| `ReceiverSpec.ConsecutiveStep` | can-tp.c:466-665 | the expected frame is stored where the message has it, answered as due, and delivered exactly if it is the last |
| `ReceiverSpec.ReceiverReassembles` | can-tp.c:466-531 | fed the first q frames of any whole transfer the buffer holds exactly the bytes they carry; one delivery, with the last |
| `ReceiverSpec.WholeTransferReceived` | can-tp.c:525-531 | a whole transfer ends in the state TX_DONE with the reassembled message in the buffer, delivered once |
| `ReceiverSpec.SegmentThenReceive` | can-tp.c:525-531 | segmentation followed by reception gives the message back; the eight-bit length is right exactly up to 255 |
| `ReceiverSpec.NoiseIgnored` | can-tp.c:475-480 | other senders' Consecutive Frames, further First Frames, Flow Control and undefined types change nothing in any run |
| `ReceiverSpec.NoisyTransferDelivers` | can-tp.c:707-752 | a whole transfer delivers its message however much of such traffic is interleaved |
| `ReceiverSpec.WaitTimeIsProduct` | can-tp.c:556 | the receiver's sleeps over k wait frames last k periods |
| `Reception.RefusedStaysIdle` | can-tp.c:350-358 | over any refused First Frames and other traffic an idle receiver stays idle, silent and with its counters at rest |
| `Reception.RefusedThenDelivered` | can-tp.c:350-418 | after any number of refused First Frames an accepted transfer is received and delivered, whole and once |
| `Reception.ClosedForSegments` | can-tp.c:697-753 | a receiver neither idle nor waiting for a Consecutive Frame sends no Flow Control and begins no transfer over any receptions |
| `Reception.DoneAfterSingleFrame` | can-tp.c:693-712 | after a Single Frame nothing but further Single Frames is heard, over any receptions, and exactly they are delivered |
| `Reception.UnbufferedBlocks` | can-tp.c:360-365 | an acceptance without a buffer blocks every later First Frame, over any receptions |
| `ReceiverContext.Receiver.constructor` | cantp_test/cantp_test.c:113 | a receiving context starts zeroed |
| `ReceiverContext.Receiver.Store` | can-tp.c:519-522 | the byte-copy loop changes exactly the buffer bytes from the index on and advances the index |
| `ReceiverContext.FailuresAre` | can-tp.c:570-575 | reports are made for exactly the sends that fail, as many as fail, and all say N_TIMEOUT_As |
| `ReceiverContext.Receiver.CanTx` | can-tp.c:400-405 | a blocking send that succeeds reports nothing, one that fails reports N_TIMEOUT_As once |
| `ReceiverContext.Receiver.SendWaits` | can-tp.c:543-605 | the FC.WAIT loop sends exactly `wft_num` frames, sleeps one period before each, never takes its exceeded branch, whatever the sends return; one N_TIMEOUT_As for each send that fails, none if all succeed |
| `ReceiverContext.Receiver.AfterConsecutive` | can-tp.c:543-663 | wait frames, block count and the Flow Control at the end of a block, in this order, with one period slept before each wait frame and no other sleep; one N_TIMEOUT_As for each send that fails, none if all succeed |
| `ReceiverContext.Receiver.RxConsecutiveFrame` | can-tp.c:466-665 | identifier, sequence number and remainder checks, storing, delivering and answering, in place on the buffer, with the time slept; one N_TIMEOUT_As for each send that fails, none if all succeed |
| `ReceiverContext.Receiver.RxFirstFrame` | can-tp.c:328-418 | rejection, missing buffer and acceptance, with the first bytes stored in the session layer's own buffer; one N_TIMEOUT_As for each send that fails, none if all succeed |
| `ReceiverContext.Receiver.CanRx` | can-tp.c:667-755 | the receiving role's cases of the reception callback on up to eight raw bytes: dispatch by type and state, with the time slept; one N_TIMEOUT_As for each send that fails, none if all succeed |
| `Drops.LossesExact` | can-tp.c:490-531 | whatever is lost, exactly the arrivals whose number agrees modulo 16 with their place are stored, in a row, the rest of the buffer is untouched, and the message is delivered if and only if nothing was lost |
| `Drops.LossesFreeze` | can-tp.c:490-501 | with at most fifteen losses before any arrival, nothing after the first loss is accepted; delivery exactly if nothing was lost |
| `Drops.DropResilience` | can-tp.c:490-531 | with 1 to 15 of a message's frames lost, the buffer is the prefix before the first loss and the message is never delivered |
| `Drops.SixteenLossesDeceive` | can-tp.c:490-523 | the bound is tight: in the run that loses frames k to k+15, frame k+16 is stored where frame k belongs and nothing is delivered |
| `Protocol.StepKeepsSafe` | can-tp.c:147-755 | every step of every interleaving, timeouts included, keeps the joint invariant |
| `Protocol.Exec` | can-tp.c:147-755 | every reachable world satisfies the joint invariant and finds the buffer its next reception needs |
| `Protocol.JointSafety` | can-tp.c:147-531 | in every reachable world the buffer agrees with the message, indices stay in range, delivery is whole, once and only when done; the error exits for exhausted remainders are unreachable |
| `Protocol.WireTransparent` | can-tp.h:125-164 | every frame under way in a reachable world is what its eight bytes decode to |
| `Protocol.SingleFrameTransfer` | can-tp.c:682-696 | a message of up to seven bytes is delivered with its exact length and reported when confirmed |
| `Lockstep.StepKeepsLock` | can-tp.c:228-246 | every step without timeout keeps sender, receiver and the Flow Control between them in lockstep |
| `Lockstep.NoBlockWait` | can-tp.c:228-246 | as written, a transfer that completes never waits after a block |
| `Lockstep.BlockLockstep` | can-tp.c:610-653 | both block counters count the same frames modulo BS; the sender waits exactly when its last frame is confirmed and due to be answered; when transmitting, it has the receiver's BS and STmin although wait frames overwrite both; Flow Control is under way only to a sender that needs it |
| `Lockstep.FlowControlCounts` | can-tp.c:543-653 | where transfers complete no Flow Control is dropped, a waiting sender is always served, and a transfer takes exactly 1 + floor((n-1)/BS) frames to continue and wft_num (n-1) to wait |
| `Conservation.FlowControlConserved` | can-tp.c:714-737 | in every reachable world, timeouts included, the Flow Control handled, dropped and under way adds up to all the receiver answered with |
| `Conservation.AnsweredExactly` | can-tp.c:543-653 | and that total is one frame to continue for the First Frame and for each full block, and wft_num to wait for each other frame but the last |
| `Lockstep.InitialisedIsViable` | cantp_test/cantp_glue_lin.c:26-99 | whatever initialisation accepts meets the assumptions of all these theorems |
| `Lockstep.SendsAtConfiguredRate` | can-tp.c:434-447 | whenever a Consecutive Frame is in transmission, the sender's separation time is the configured one rounded down |
| `Completion.TimelyRunsAreFinite` | can-tp.c:147-653 | a run without timeouts has at most (3 wft_num + 10)(n + 1) steps, in whatever order |
| `Completion.CompletionExact` | can-tp.c:193-268 | where such a run can go no further, the transfer is complete if and only if the guard is the documented one, there are no blocks, or the message fits one; otherwise the sender is stuck after exactly 6 + 7 BS bytes |
| `Completion.SomeTransferSticks` | can-tp.c:714-737 | as written, an accepted transfer of 20 bytes with blocks of one frame sticks |
| `Completion.EveryRunComesToRest` | can-tp.c:147-653 | every such run can be continued to one that can go no further |
| `Completion.StuckForGood` | can-tp.c:714-737 | no step leads out of the stuck state, timeouts included |
| `Completion.StuckRuns` | can-tp.c:57-73 | a stuck transfer stays stuck over every continuation, and nothing is ever reported |
| `SyncDriver.SyncConfirm` | cantp_test/fake_can_linux.c:126-145 | the mutual recursion of confirmation and transmission terminates, since every round sends message bytes |
| `SyncDriver.SyncIsAsync` | cantp_test/fake_can_linux.c:126-145 | nested calls reach the state, frames and report of the same confirmations one after the other |
| `SyncDriver.SyncEmitsSegments` | can-tp.c:147-268 | the nested calls emit the next frames of the segmentation up to the end of block or message, to a depth of at most n |
| `SyncDriver.OneCtsSendsAll` | can-tp.c:449-452 | one Flow Control frame without block limit makes the nested calls send the whole rest and report it |
| `SyncDriver.ConfirmNested` | cantp_test/fake_can_linux.c:126-145 | the nested handler on a context's own fields does what the specified chain does |
| `Pacing.UsesAskedSt` | can-tp.c:438-447 | over whole runs the separation time in use is that of the latest Flow Control with a valid code |
| `Pacing.CfsArePaced` | can-tp.c:247-267 | from any Consecutive Frame on, while no Flow Control is handled, the next m frames take at least m separation times |
| `Timing.TimedRunsRun` | can-tp.c:147-755 | a run against the clock is a run, so all safety and lockstep results apply to it |
| `Timing.OneSecond` | can-tp.h:83-92 | all timers last 1000 ms: a timer may run out, or a wait be given up, exactly from 1 000 000 us on |
| `Timing.PausesAreSleeps` | can-tp.c:545-605 | the pauses between a handler's Flow Control frames add up to the time the handler sleeps, one period for each wait frame |
| `Timing.NoExpiry` | can-tp.c:453-457 | where transfers complete: if a wait period and three hops fit into N_Bs, a running timer's time is never up, since something is due before |
| `Timing.ClocksOnRuns` | can-tp.c:240-243 | then no sender timer expires and no held Flow Control is given up in any punctual run |
| `Timing.TimedTransfersComplete` | can-tp.c:147-653 | and every such run can be continued, in bounded many steps, until the message is delivered and reported |
| `Timing.WaitsHoldBack` | can-tp.c:543-605 | from handling a frame that is not the last to the Flow Control that lets the sender continue, at least wft_num periods pass |
| `Timing.WaitsStandForStMin` | cantp_test/cantp_glue_lin.c:41-63 | with initialised parameters that is the configured separation time, short of it by less than one period |
| `Spacing.FramesApart` | can-tp.c:247-267 | in every timed run of both roles, one Consecutive Frame follows another by at least wft_num periods after a block and by at least the decoded STmin inside one |
| `Spacing.ConfiguredSeparation` | cantp_test/cantp_glue_lin.c:32-85 | so the sender keeps the separation time configured at the receiver: rounded down inside a block, or short by less than one wait period where wait frames stand in for it |
| `TimingBound.OftenEnoughExactly` | can-tp.c:549-556 | where transfers complete the condition is exact, with the bound of 1 000 000 us: if a wait period and three hops do not fit, some punctual run lets N_Bs expire |

## Left out

- Reception timeouts: the receiver's timer callback is unimplemented in the source; its timer is modelled as armed or stopped only.
- A second message to the same receiving context: the receiver never returns to Idle and does not reset `rcvr.sn` or its block count, so end-to-end results cover one segmented message per context. The sender's run results cover any number of messages.
- Both roles in one context: the receiver counts blocks in `sndr.bl_index`; the model gives each role its own context, as the repository's programs do.
- Fields written but never read by the protocol: `sndr.id_pair`, `rcvr.bl_index`, `rcvr.block_size`.
- The data pointer of a send: the message is a value captured at the send, so a caller that changes the buffer during the transfer is not modelled.
- The state semaphore's token count: a held frame records only that the state changed since it was held; the wait may also end by giving the frame up at any time (in timed runs, after N_Bs).
- Failed blocking sends in the joint model: in `ReceiverContext` any blocking send may fail, which the source only reports; in `Protocol` the frame always enters the channel.
- Loss of First Frames and Flow Control: `Drops` covers lost Consecutive Frames, the joint model's channels are lossless.
- Lengths above 4095: `SenderSpec` models the truncated First Frame such a message gets, and its own segmentation; transfers are stated for 8 to 4095 bytes, the range the length field can announce.
- Malformed frames: more than eight data bytes, a First Frame announcing fewer than six bytes to an accepting session layer, and a session buffer of another size than announced are excluded by precondition.
- Resource exhaustion and aborts marked as to do in the source (overflow status, missing buffer): they are modelled as the steps they are, without the intended error handling.
- `SenderSpec.StepKeepsGood`: callbacks are atomic and the confirm handler is not entered again during its STmin sleep; the source's own sender task waits for a confirmation only in the sending states and is itself asleep then (can-tp.c:781-799). `SenderSpec.ConfirmTracksExactly` and `SenderSpec.ReentryReportsTwice` say what depends on this.
- `SenderSpec.StepKeeps`: the same assumption.
- `SenderSpec.Run`: the same assumption.
- `SenderSpec.OutcomesConserved`: the same assumption.
- `SenderSpec.EmitsSegmentation`: the same assumption.
- `SenderContext.Sender.CanRxFlowControl`: a state-change token given before the frame arrived, which would end the wait at once, is not modelled; the semaphore's implementation is not part of the source.
- `ReceiverContext.Receiver.CanRx`: Flow Control frames belong to the sending role and are handled by `SenderContext.Sender.CanRxFlowControl`.
- `SyncDriver.ConfirmNested`: makes the nested call right after the handler returns instead of inside the transmit call; the transmit call is the last thing the handler does.
- `ReceiverSpec.AfterConsecutive`: the handler's state between two of its blocking sends is not a state of its own; in `Protocol` its frames leave one by one after the context has reached its final state.
- `Timing.OftenEnough`: latency is one bound for each hop (confirmation and delivery of a frame, a ready blocking send, dealing with Flow Control), not one per direction.
- Timer implementation, pipes, threads, memory synchronisation, logging and argument handling of the example programs.
- Identifier types (11 or 29 bit) are passed through by the source and not modelled.
