# RasPike link and DFU tools: verification

A Dafny model of the host side of the RasPike link (`src/`) and of the DfuSe image builder and
flasher (`external/libpybricks/micropython/tools/`), with proofs of what they are for. Verify with
`dafny verify dfyconfig.toml`.

## What is modelled

**The link** (`Link*.dfy`) is a transition system. A state holds the shared variables, the seven
port slots, the counters, the holders of the long-lived mutexes, a program counter per thread and
a history of events. One step is one mutex-protected block or one access to an atomic variable, so
a run is any interleaving of any number of requests, plain sends, receive calls, HELLOs, shutdowns
and initialisations. `LinkLifecycle`, `LinkHistory`, `LinkReplay`, `LinkRequests` and
`LinkSession` each prove one part of the invariant; `LinkTheorems` and `LinkRuns` state what follows
in every reachable state; `LinkReturns` what a request returns by itself and what an ACK can carry;
`LinkCalls` and `LinkCounters` what is counted; `LinkCommands` what a received command may change; `LinkScenarios` builds the runs in
which two promises fail. `LinkBlocks` has the blocks as the program has them, changing
slots, status and counters in place. `LinkAlone` shows that the steps of an undisturbed receive
call add up to the sequential `process_command`, and `LinkProgram` runs `raspike_request`
and `raspike_prot_shutdown` as written, loops and retries included, against arbitrary interference,
and shows that they take exactly the steps of the transition system. The step relations of `Link`
follow these lines: `RequestStep` and `JobStep` `src/raspike_protocol.c:477-562` with the send of
`src/raspike_protocol.c:213-233`, `NoteStep` `src/raspike_protocol.c:464-475`, `ReceiveStep`
`src/raspike_protocol.c:588-815`, `HelloStep` `src/raspike_protocol.c:565-586`, `ShutdownStep` and
`WindDownStep` `src/raspike_protocol.c:419-447`, `InitStep` and `NegotiateStep`
`src/raspike_protocol.c:342-417`, `CountStep` `src/raspike_motor.c:48-55`.

**The codec** (`Bytes`, `Crc`, `Gf2`, `Frame`): the checksum loop, frames built in place in a buffer,
and the receive path with its resynchronisation, over descriptors that cut the stream as they like.

**The transport** (`Transport`): partial reads and writes, retries, the 4096-byte send buffer.
**Numbers and cached state** (`Sequence`, `Status`): the sequence counter across its wrap-around and
the in-place overlay of drive telemetry. **Mutex order** (`Locks`, `LockConflicts`): every call as the
sequence of its lock operations, threads interleaving freely.

**DFU** (`Dfu`, `Flash`, `FlashExact`, `FlashLayout`, `DfuFlash`): `build` with its in-place padding, `read_dfu_file`
with its slices and error paths, the page-by-page writer against a flash whose erase sets a page to
0xFF and whose write can only clear bits, exactly which layouts that writer serves, and the whole way
from images to flash contents. The file
layout is that of section 2 of UM0391 with the suffix of Appendix B of USB DFU 1.1.

## What the proofs found

- A status or telemetry frame of the old session can be stored after a HELLO has installed a new
  session and cleared both, but only when the application runs two receive calls at once: the
  session check and the store are separate blocks (`src/raspike_protocol.c:599-602` and
  `src/raspike_protocol.c:605-651`). With one receive call at a time it cannot happen. ACKs are
  immune either way, because the check is repeated under the port's mutex.
- A request for command 0 can return through the ACK branch with data that no ACK carried: a
  shutdown between the match and the wake clears the slot and leaves v2 mode, and a cleared slot
  looks like an ACK of command 0. For every other command the branch is sound.
- A flush that fails after writing part of the buffer keeps all of it, so the part is sent twice
  by the next flush. The buffer is a FIFO exactly as long as no failed flush has written anything.
- Configuring a device holds its device mutex while it takes the send mutex; shutdown holds the
  send mutex while it takes every device mutex. Two threads can block each other for good exactly
  when one configures a device and a different one shuts the link down, at any point of their
  programs and beside any other threads. One thread that does both, in whatever order, cannot.
- The page mask serves every write into a memory layout of disjoint segments exactly when each
  segment starts at a multiple of its page size rounded up to a power of two, and either has pages
  of a power of two or is a single page with nothing mapped right behind it. In any other layout
  some write loses a byte; across two pages whose size is not a power of two, the second of two
  written bytes erases the first.

## Assumptions

- Initialisation does not run beside a shutdown or another initialisation. Shutdown frees the
  status after it has given up the descriptor.
- Requests are made only after the first initialisation, whose `init_port_device` is the reset loop
  of later ones on slots that are clear. Transport errors are never ENOMSG or ESTALE.
- Every read or write that makes no progress takes at least one millisecond, so deadlines pass.
- The address given to the flasher and every address it computes fit 32 bits.

## Model

| member | source | states |
|---|---|---|
| Crc.Crc16 | src/raspike_protocol_com.h:93-104 | the byte-wise nested loop leaves the register that results from feeding the message bits one by one |
| Crc.FeedLinear | src/raspike_protocol_com.h:93-104 | the checksum is linear over xor, in preset and message together, for all lengths |
| Crc.FeedInjective | src/raspike_protocol_com.h:96-102 | for a fixed message, different register values stay different: each bit step is invertible |
| Crc.BurstChangesRegister | src/raspike_protocol_com.h:93-104 | messages that differ, and only within sixteen consecutive bits, have different checksums |
| Crc.FeedParity | src/raspike_protocol_com.h:96-102 | the parity of the final register is the parity of preset and message together |
| Gf2.FeedDivides | src/raspike_protocol_com.h:93-104 | message times x^16 plus the sixteen powers from its length up is a multiple of x^16+x^12+x^5+1 plus the register |
| Gf2.RemainderUnique | src/raspike_protocol_com.h:93-104 | a polynomial has only one remainder of degree below 16 |
| Gf2.CrcIsRemainder | src/raspike_protocol_com.h:93-104 | a polynomial is the remainder of message times x^16 plus the sixteen powers from the message's length up, the preset 0xffff, if and only if it is the checksum |
| Bytes.PutLEAt | src/raspike_protocol_com.h:79-91 | byte i of a stored number is its digit i to the base 256 |
| Bytes.BitsAt | src/raspike_protocol_com.h:96-102 | bit i of a register or byte, from the top, is its binary digit of that weight |
| Frame.PutU16At | src/raspike_protocol_com.h:79-83 | stores the two bytes, low byte first, and nothing else |
| Frame.PutU32At | src/raspike_protocol_com.h:85-91 | stores the four bytes, low byte first, and nothing else |
| Frame.BuildV2Frame | src/raspike_protocol.c:189-204 | the buffer filled field by field holds the frame's encoding |
| Frame.SendV2Frame | src/raspike_protocol.c:180-211 | refuses a bad port or an oversized payload without sending; otherwise the encoding goes to the transport whole, or an error comes back and only a proper prefix is on the wire |
| Frame.WireLayout | src/raspike_protocol_com.h:14-34 | every field of an encoded frame stands at its offset, all numbers low byte first, the checksum over bytes 1 to 14 + size |
| Frame.LegacyLayout | src/raspike_protocol.c:172-176 | a legacy frame is 0xEA, command, size, port and payload |
| Frame.SendLegacyFrame | src/raspike_protocol.c:166-178 | the same for legacy frames, up to 255 bytes of payload |
| Frame.Receiver.DiscardBytes | src/raspike_protocol.c:717-728 | on a reliable stream exactly the requested bytes are dropped |
| Frame.Receiver.ReceiveV2Frame | src/raspike_protocol.c:730-771 | the outcome and the bytes left are those of the declarative decoder; a frame reported was the next thing on the wire; counters rise with the outcome |
| Frame.Receiver.ReceiveLegacyFrame | src/raspike_protocol.c:696-715 | the same for legacy frames |
| Frame.Receiver.Receive | src/raspike_protocol.c:784-806 | however the stream is cut into reads, one call does what the decoder does on the whole stream |
| Frame.DecodeIffEncoded | src/raspike_protocol.c:730-771 | a stream decodes to a frame if and only if it begins with that frame's encoding |
| Frame.LegacyDecodeIffEncoded | src/raspike_protocol.c:696-715 | a stream decodes to a legacy frame if and only if it begins with that frame's encoding |
| Frame.BlockConsumed | src/raspike_protocol.c:738-764 | a bad checksum, version or size still consumes exactly 16 + size bytes |
| Frame.StreamDecodes | src/raspike_protocol.c:784-806 | any list of v2 frames, legacy frames, damaged blocks, legacy headers for no port and gap bytes decodes to exactly these, in order |
| Frame.ReceiveAll | src/raspike_protocol.c:784-806 | the receive loop yields the decoder's outcomes, uses up the stream and raises framing_errors, up to dispatch, and crc_errors by their number |
| Frame.FramingErrorsAreGaps | src/raspike_protocol.c:798-801 | between undamaged frames, framing_errors counts exactly the gap bytes |
| Frame.ErrorsAreCounted | src/raspike_protocol.c:738-764 | over any stream framing_errors counts the gap bytes, the blocks of another version or above 240 bytes and the legacy headers for no port, crc_errors the other refused blocks, each once |
| Frame.BurstRefused | src/raspike_protocol.c:755-764 | a frame hit by a burst of at most sixteen bits in its covered bytes, size byte excepted, is refused and the next one still found |
| Frame.OddFlipsRefused | src/raspike_protocol.c:755-764 | an odd number of flipped bits over covered bytes and checksum, size byte excepted, is refused |
| Transport.WriteAll | src/raspike_com.c:71-92 | everything is written in order, or an error leaves a proper prefix on the wire |
| Transport.ReceiveTimeout | src/raspike_com.c:254-273 | exactly the requested bytes, or an error after dropping what had arrived; on a reliable stream it fails only for lack of bytes |
| Transport.UsbTransport.BufferedWrite | src/raspike_com.c:110-122 | appends the bytes or refuses and changes nothing |
| Transport.UsbTransport.Flush | src/raspike_com.c:124-142 | success moves the whole buffer to the wire; failure writes a proper prefix and keeps the buffer |
| Transport.UsbTransport.Send | src/raspike_com.c:153-164 | buffered mode appends, normal mode writes through |
| Transport.QueueWithoutLeaks | src/raspike_com.c:110-164 | over any sends and successful flushes, wire then buffer is the concatenation of the accepted sends |
| Transport.BufferedFifo | src/raspike_com.c:110-164 | with failed flushes too, that holds if and only if no failed flush wrote a byte |
| Transport.RefusedOnlyForRoom | src/raspike_com.c:110-122 | a send is accepted if and only if it fits behind what is held; ENOBUFS if and only if a flush would make it fit, EINVAL if and only if nothing would |
| Transport.FittingSendsArrive | src/raspike_com.c:110-142 | any sends that fit together are all accepted and reach the wire with the next flush |
| Transport.BufferBounded | src/raspike_com.c:110-122 | the buffer never exceeds 4096 bytes |
| Transport.FlushCatchesUp | src/raspike_com.c:124-164 | a buffered run and a flush, and the same accepted sends in normal mode, leave the same wire and nothing held back |
| Sequence.Counter.NextSequence | src/raspike_protocol.c:157-164 | hands out the counter and moves it to the 32-bit successor that skips zero |
| Sequence.NumbersRepeatOnlyAfterPeriod | src/raspike_protocol.c:157-164 | no number is zero; two calls get the same number if and only if they are a multiple of 2^32 - 1 calls apart |
| Status.ApplyDriveTelemetry | src/raspike_protocol.c:620-651 | the copies in place give the overlay defined byte by byte: color over slot 1 over slot 0 over the old byte |
| Status.ResetCount | src/raspike_motor.c:48-55 | clears the four count bytes of the port and nothing else |
| Status.MotorFieldsLand | src/raspike_protocol.c:626-637 | read back as signed numbers, the record of a flagged motor port holds the frame's count, speed and power and its port id, slot 1 deciding where both name it; the count unless it is the color port |
| Status.ReflectionLands | src/raspike_protocol.c:639-647 | the color port's first four data bytes are the frame's 16-bit reflection as a 32-bit number |
| Status.CountIsReset | src/raspike_motor.c:48-55 | after a reset the count reads zero and every other byte is as before |
| Status.OverlayFrame | src/raspike_protocol.c:626-647 | an overlay changes only port id and data bytes 0..9 of flagged motor ports, and port id and bytes 0..3 of the color port |
| Status.OverlayTwice | src/raspike_protocol.c:626-647 | of two frames naming the same ports the later decides every byte they name |
| LinkBlocks.PortDevice.Register | src/raspike_protocol.c:487-494 | the slot is pending under the number, with no answer |
| LinkBlocks.PortDevice.Reset | src/raspike_protocol.c:130-148 | a pending slot is cancelled with the error and its own number, another one wiped |
| LinkBlocks.PortDevice.Acknowledge | src/raspike_protocol.c:664-683 | the slot takes the ACK if and only if it is pending, the command is not negative and, in v2, number and session match; else it stays |
| LinkBlocks.PortDevice.Conclude | src/raspike_protocol.c:542-557 | the result of the branch taken, the timeout mark, and the pending flag cleared |
| LinkBlocks.LinkState.ResetPortState | src/raspike_protocol.c:128-155 | every port is reset, in the session of the moment |
| LinkBlocks.LinkState.ProcessHelloPayload | src/raspike_protocol.c:565-586 | a malformed, zero or unchanged session changes nothing; a new one is installed, ports cancelled with ESTALE, status and telemetry zeroed |
| LinkBlocks.LinkState.ProcessCommand | src/raspike_protocol.c:588-694 | new state and result for every command, refusal and size check |
| LinkBlocks.LinkState.ReceiveCommand | src/raspike_protocol.c:802-806 | rx_frames counts results 0, ENOMSG and ESTALE |
| LinkCommands.RefusalLeavesOneTrace | src/raspike_protocol.c:588-694 | a frame for no port, of another session, or a stale ACK raises just its own counter; a wrong size or unknown command changes nothing; an accepted one raises no counter |
| LinkCommands.CommandsKeepToTheirPart | src/raspike_protocol.c:604-694 | only a HELLO changes the session, only status commands the status, only an ACK the one slot of its port |
| LinkCommands.AcceptedCommandsTakeEffect | src/raspike_protocol.c:605-683 | sizes 136, 68, 34 and 8 and what each command then stores |
| LinkCommands.HelloTakesEffect | src/raspike_protocol.c:565-586 | no or the same session: nothing; a new one: in force, pending requests cancelled as stale, status and telemetry zero |
| LinkCommands.HelloReadsBack | src/raspike_protocol.c:565-569 | a HELLO written low byte first announces the session it was written with |
| LinkCommands.OtherHellosAnnounceNothing | src/raspike_protocol.c:567 | of another length or version it announces nothing |
| LinkCommands.PortsApart | src/raspike_protocol.c:105-110 | different ports have different slots, the hub the seventh |
| LinkAlone.CommandIsItsSteps | src/raspike_protocol.c:588-694 | from any state, the steps of one thread over a dispatched frame, undisturbed, end in the state the sequential process_command and its count give |
| LinkProgram.Caller.Interfere | src/raspike_protocol.c:485-558 | between two blocks the shared state may become anything that leaves the caller's own place alone |
| LinkProgram.Caller.AwaitAnswer | src/raspike_protocol.c:516-527 | the wait ends when nothing is pending, the deadline has passed or the wait failed |
| LinkProgram.Caller.SendFrame | src/raspike_protocol.c:213-233 | gives ENOTCONN when the link is stopped or detached at the moment the send mutex is taken, else what the transport answers, as a path of request steps |
| LinkProgram.Caller.OneAttempt | src/raspike_protocol.c:500-538 | one round of the retry loop is a path of request steps and uses up one attempt |
| LinkProgram.Caller.Ask | src/raspike_protocol.c:477-562 | under any interference the whole call is a path of request steps from idle to idle and returns what its last block logs; by itself it returns the error of its attempts, each explained by the link, the transport or the wait, and where none of these failed -ETIMEDOUT with request_timeouts raised by one; a bad port gives EINVAL at once |
| LinkProgram.Caller.Retry | src/raspike_protocol.c:496-540 | two attempts in v2, one before: all used up, or the last could not be sent, or the slot was found no longer pending |
| LinkProgram.MovesAreReached | src/raspike_protocol.c:477-562 | where the interference is steps of other threads, the call's moves and those steps form a run |
| LinkProgram.ReturnedValueWasAnswered | src/raspike_protocol.c:546-551 | so a value the call returns through its ACK branch is the data of an ACK received for it, in the session of that moment |
| LinkProgram.Caller.DrainReceivers | src/raspike_protocol.c:423-426 | shutdown goes on only with the lifecycle mutex in hand and no receive call left |
| LinkProgram.Caller.CancelRequests | src/raspike_protocol.c:432 | the reset loop takes the cancelling step of every port in turn |
| LinkProgram.Caller.RunShutdown | src/raspike_protocol.c:419-447 | under any interference the whole call is a path of shutdown steps, from raising the stop flag to idle, and the descriptor it takes out of the shared state is the one it closes |
| LinkLifecycle.HoldersKept | src/raspike_protocol.c:485-558 | every step keeps each mutex with the thread whose place in the program says it holds it |
| LinkRequests.ResetKeepsPorts | src/raspike_protocol.c:128-155 | a reset keeps slots and history in agreement on every port, and cancels only what the history has outstanding |
| LinkRequests.MatchPorts | src/raspike_protocol.c:664-683 | a matched ACK does so too, names the outstanding number, and comes in the session of the moment |
| LinkRequests.ConcludePorts | src/raspike_protocol.c:542-557 | the last block does so too, and whatever branch it takes is justified by the history before it |
| LinkReplay.ReplaysKept | src/raspike_protocol.c:565-651 | every step keeps status, telemetry and session equal to the replay of the history |
| LinkLifecycle.AliveKept | src/raspike_protocol.c:342-447 | every step keeps descriptor, status and session alive for the threads that rely on them |
| LinkSession.IsolatedKept | src/raspike_protocol.c:565-651 | with one receive call at a time, a checked frame's session stays current until its write |
| LinkInvariant.InvKept | src/raspike_protocol.c:342-813 | every step of every thread keeps the whole invariant |
| LinkInvariant.ReachableInv | src/raspike_protocol.c:342-813 | hence it holds after every run |
| LinkTheorems.AckedReturnWasAnswered | src/raspike_protocol.c:546-551 | a return through the ACK branch carries the data of an ACK for the same port, command and number, processed after registration, in the session current when it matched |
| LinkScenarios.CommandZeroReturnsUnanswered | src/raspike_protocol.c:543-557 | for command 0 outside v2 mode that can fail: a run that returns 0 though the answer said 7 |
| LinkTheorems.RightAckCompletes | src/raspike_protocol.c:664-678 | an ACK for the outstanding number, in the session of the moment, with a command not negative, is always matched |
| LinkTheorems.FoundAnswerIsReturned | src/raspike_protocol.c:542-551 | an answer or a cancellation found in the slot is what the call returns |
| LinkTheorems.CanceledReturnWasCanceled | src/raspike_protocol.c:543-544 | a return through the cancel branch was outstanding when a reset cancelled it with exactly that error |
| LinkTheorems.MatchedAckWasCurrent | src/raspike_protocol.c:664-669 | every match, with any number of concurrent receive calls, names the outstanding number and the session current at that moment |
| LinkReturns.UnansweredReturn | src/raspike_protocol.c:496-557 | in every reachable history a return by itself is negative, and -ETIMEDOUT unless an attempt was refused with ENOTCONN, failed to send or failed to wait with that error; it has used up its attempts, at most two, unless the slot was found done |
| LinkReturns.TimeoutsAreCounted | src/raspike_protocol.c:552-553 | request_timeouts is the number of returns by themselves with -ETIMEDOUT since the counters were cleared |
| LinkReturns.AckPayloadReadsBack | src/raspike_protocol.c:659-662 | an ACK payload holding two signed 32-bit numbers, low byte first, is read back as exactly these |
| LinkReturns.MatchedAckInRange | src/raspike_protocol.c:664-678 | every ACK that completed a request carried 0 <= cmd < 2^31 and -2^31 <= data < 2^31 |
| LinkReturns.NegativeAckMatchesNothing | src/raspike_protocol.c:664-669 | an ACK whose command field has its top bit set completes nothing |
| LinkTheorems.AtMostOneAckPerRequest | src/raspike_protocol.c:664-683 | between two matches on a port lies a new registration, retransmissions included |
| LinkTheorems.DuplicateAckOnlyCounted | src/raspike_protocol.c:679-682 | an ACK for a number not outstanding changes nothing but stale_acks |
| LinkTheorems.PendingHasOneOwner | src/raspike_protocol.c:485-494 | a pending slot has exactly one caller, the holder of the port's request mutex |
| LinkTheorems.LegacyAckNeverMatches | src/raspike_protocol.c:696-715 | an ACK in a legacy frame never completes a request |
| LinkTheorems.IssuedNumbersDistinct | src/raspike_protocol.c:157-164 | numbers issued since initialisation are non-zero and repeat only after 2^32 - 1 |
| LinkTheorems.OlderAckNeverMatches | src/raspike_protocol.c:664-669 | an ACK for an older request within that window cannot match the pending one |
| LinkTheorems.ActiveReceiverIsSafe | src/raspike_protocol.c:773-813 | an active receiver implies a completed handshake, an open descriptor, a status and a non-zero session |
| LinkTheorems.NoUseAfterClose | src/raspike_protocol.c:419-447 | no send and no close is about to use a closed descriptor |
| LinkTheorems.ClosedAtMostOnce | src/raspike_protocol.c:419-447 | a descriptor is closed at most once however often shutdown runs |
| LinkTheorems.DetachedMeansDrained | src/raspike_protocol.c:423-437 | once shutdown has detached the descriptor nobody is receiving |
| LinkTheorems.StopIsFinal | src/raspike_protocol.c:213-221 | once shutdown has begun no request or send takes the send mutex and no receive call begins |
| LinkTheorems.ShutdownLeavesNothing | src/raspike_protocol.c:419-447 | when it returns there is no descriptor, status, session, v2 mode, handshake or receiver |
| LinkTheorems.InitialisationEnds | src/raspike_protocol.c:342-417 | an initialisation ends with all a receive call needs, or with no descriptor and no status |
| LinkTheorems.StateIsReplay | src/raspike_protocol.c:605-651 | status, telemetry and session equal the replay of the history; the session is non-zero while connected |
| LinkTheorems.WritesPassedTheirCheck | src/raspike_protocol.c:599-602 | every v2 write names the session that was current when its check passed |
| LinkRuns.HelloCancelsPending | src/raspike_protocol.c:128-155 | what is pending when the loop of a HELLO reaches its port is cancelled with ESTALE, and the rest wiped |
| LinkRuns.HelloCancelsOlderRequests | src/raspike_protocol.c:565-586 | behind that loop, only requests registered after the new session are pending |
| LinkRuns.ShutdownCancelsPending | src/raspike_protocol.c:432 | what is pending when the loop of a shutdown reaches its port is cancelled with ENOTCONN, and the rest wiped |
| LinkRuns.ShutdownCancelsOlderRequests | src/raspike_protocol.c:427-437 | after that loop, before the descriptor is closed, only requests registered after it was taken away are pending |
| LinkRuns.InitialisationCancelsPending | src/raspike_protocol.c:373-375 | the loop of an initialisation cancels with ENOTCONN |
| LinkRuns.OneReceiverIsolatesSessions | src/raspike_protocol.c:565-651 | with one receive call at a time, every v2 write to status or telemetry names the session in force at that moment |
| LinkScenarios.TwoReceiversBreakIsolation | src/raspike_protocol.c:599-651 | for every larger number of concurrent calls there is a run in which that fails |
| LinkRuns.RefusalsAreReceived | src/raspike_protocol.c:796-813 | session_errors + stale_acks <= rx_frames + active receivers in every reachable state |
| LinkCounters.CountersSayWhatHappened | src/raspike_protocol.c:80-85 | outside initialisation each counter rises by one exactly when its event happens and never falls |
| LinkCalls.OneCountPerCall | src/raspike_protocol.c:773-813 | in any interleaving a receive call raises at most one of rx_frames, crc_errors and framing_errors, by one |
| Locks.OrderedNeverStuck | src/raspike_protocol.c:427-437 | threads whose lock operations climb one strict rank and give everything back never all wait |
| Locks.CallNeutral | src/raspike_protocol.c:477-562 | every call of the link climbs the rank: shutdown with the device mutexes late, device configuration with them early |
| LockConflicts.LinkNeverStuck | src/raspike_protocol.c:342-903 | any threads making any calls, in any interleaving, never all wait for one another, unless one configures a device and a different one shuts down |
| LockConflicts.OpenDuringShutdownCanStick | src/raspike_internal.h:50-81 | if one does and its first attempt sends, a schedule exists in which the two block for good, whatever else they and all other threads do |
| LockConflicts.CanStickIffConflict | src/raspike_protocol.c:427-437 | threads making given calls can block one another for good, by schedule or by what the calls meet, if and only if one configures a device and a different one shuts down |
| Dfu.PackImage | external/libpybricks/micropython/tools/dfu.py:79-84 | pads the image in place to a multiple of 8 and appends its element, or fails when a number does not fit |
| Dfu.BuildTarget | external/libpybricks/micropython/tools/dfu.py:77-84 | the body of a target, images padded in place even where one is listed twice |
| Dfu.Build | external/libpybricks/micropython/tools/dfu.py:75-94 | the file's bytes; it fails if and only if some number does not fit its field |
| Dfu.PrefixFields | external/libpybricks/micropython/tools/dfu.py:90 | the first eleven bytes of every built file unpack as "DfuSe", 1, the file's length less 16 and the number of targets |
| Dfu.SuffixFields | external/libpybricks/micropython/tools/dfu.py:91-94 | the last sixteen unpack as 0, product and vendor modulo 2^16, 0x011A, "UFD", 16 and the complement of the CRC-32 of all before |
| Dfu.TargetPrefixBack | external/libpybricks/micropython/tools/dfu.py:85-87 | a target prefix unpacks as "Target", 0, 1, "ST..." padded with zeros, size and number of elements |
| Dfu.ReadTarget | external/libpybricks/micropython/tools/pydfu.py:380-395 | the inner loop computes the declarative reading of one target |
| Dfu.ReadDfuFile | external/libpybricks/micropython/tools/pydfu.py:323-425 | the outer loop computes the declarative reading of the file, with every refusal and every raised error |
| Dfu.TargetsReadBack | external/libpybricks/micropython/tools/pydfu.py:353-398 | the walk over the targets of a built file returns their images and leaves exactly the bytes behind them |
| Dfu.BuildThenRead | external/libpybricks/micropython/tools/dfu.py:75-94 | for every list of targets that fits, reading the built file returns all images in order, same address, padded data, unless the builder's target name does not decode: then it raises |
| Dfu.WrongChecksumRefused | external/libpybricks/micropython/tools/pydfu.py:417-419 | with any other checksum the built file is refused |
| Dfu.BodyReadsBack | external/libpybricks/micropython/tools/pydfu.py:378-398 | the elements of a target read back in order, and bytes left over behind them do not matter |
| Dfu.TruncatedElementIsRead | external/libpybricks/micropython/tools/pydfu.py:390-395 | an element cut short by the end of its target is read with the bytes there are |
| Dfu.UnnamedTargetsDecodeNothing | external/libpybricks/micropython/tools/pydfu.py:368-371 | the name of a target that is not named is not decoded |
| Dfu.AcceptedMeansChecked | external/libpybricks/micropython/tools/pydfu.py:409-425 | a file is accepted if and only if its last four bytes and the CRC-32 of the rest add up to 0xFFFFFFFF and the walk ends sixteen bytes before the end |
| Dfu.ElementsFollow | external/libpybricks/micropython/tools/pydfu.py:378-395 | of the elements read from a target only the last can be shorter than announced, and then nothing follows it |
| Flash.WriteMemory | external/libpybricks/micropython/tools/pydfu.py:219-254 | chunk by chunk, bits are cleared as if the buffer had been written at once |
| Flash.ErasePageOf | external/libpybricks/micropython/tools/pydfu.py:525-536 | erases the page around the address and cuts the write at its end, or does neither when unmapped or mass-erased |
| Flash.WriteElement | external/libpybricks/micropython/tools/pydfu.py:516-540 | memory and device commands after one element |
| Flash.FlashHoldsImage | external/libpybricks/micropython/tools/pydfu.py:510-542 | on covered flash with aligned power-of-two pages the element's range holds its data whatever was there, the rest of its pages reads 0xFF, all else is untouched |
| Flash.MassErasedHoldsImage | external/libpybricks/micropython/tools/pydfu.py:524-540 | with mass erase, an erased range ends up holding the data and all else is untouched |
| Flash.NoEraseAfterWrite | external/libpybricks/micropython/tools/pydfu.py:524-540 | no page is erased after a byte of this element has been written to it |
| Flash.ElementIsSentInRow | external/libpybricks/micropython/tools/pydfu.py:219-254 | an element's bytes are sent in order, none left out and none twice, in transfers of at most the device's size |
| Flash.FlashHoldsElements | external/libpybricks/micropython/tools/pydfu.py:510-542 | elements sharing no page are all in flash at the end |
| Flash.MaskIsRemainder | external/libpybricks/micropython/tools/pydfu.py:532 | masking with a power of two less one is the remainder |
| FlashLayout.GroupSegments | external/libpybricks/micropython/tools/pydfu.py:468-485 | the inner loop lists the segments of one group |
| FlashLayout.MemoryLayout | external/libpybricks/micropython/tools/pydfu.py:463-486 | the outer loop lists the segments of every group |
| FlashLayout.LayoutIsAllGroups | external/libpybricks/micropython/tools/pydfu.py:463-486 | the layout has the segments of every group and no others |
| FlashLayout.UnitsScale | external/libpybricks/micropython/tools/pydfu.py:473-477 | K stands for 1024 bytes, M for 1024 K, any other letter for bytes |
| FlashLayout.SegmentsTile | external/libpybricks/micropython/tools/pydfu.py:469-485 | the segments of a group tile its bytes: no gap, no overlap, nothing outside |
| FlashLayout.GoodWhenAligned | external/libpybricks/micropython/tools/pydfu.py:469-485 | every write into a reported group holds if and only if its segments serve the mask; with two pages or more in every entry, if and only if all pages are aligned powers of two |
| FlashExact.HoldsIffServes | external/libpybricks/micropython/tools/pydfu.py:524-540 | on disjoint segments of any sizes, every covered write leaves its data for every memory if and only if each segment is aligned to its rounded-up page size, has power-of-two pages or a single page, and an odd single page has nothing mapped behind it |
| FlashExact.HoldsIffUsable | external/libpybricks/micropython/tools/pydfu.py:524-540 | the same for one segment alone, of any number of pages of any size |
| FlashExact.HoldsIffGood | external/libpybricks/micropython/tools/pydfu.py:524-540 | where all segments have two pages or more: if and only if all pages are aligned powers of two |
| FlashExact.MisalignedLeaves | external/libpybricks/micropython/tools/pydfu.py:532 | in a page that does not start at a multiple of the rounded-up page size some address is masked below the page |
| FlashExact.OddPagesLoseBytes | external/libpybricks/micropython/tools/pydfu.py:527-536 | for every page size that is not a power of two and every memory, writing two zeros across the first border leaves 0xFF in place of the first |
| DfuFlash.Upload | external/libpybricks/micropython/tools/pydfu.py:601-615 | mass erase first, then reading, then writing only if elements were read |
| DfuFlash.ImagesReachFlash | external/libpybricks/micropython/tools/pydfu.py:510-542 | images sharing no page go through build, read and write and are all in flash, padded |
| DfuFlash.ImageReachesFlash | external/libpybricks/micropython/tools/pydfu.py:510-542 | for a single image on any layout that serves its writes, memory at [addr, addr + len) equals the padded image |
| DfuFlash.ImageReachesErasedFlash | external/libpybricks/micropython/tools/pydfu.py:601-612 | with a mass erase, on any layout, the flash holds the padded image and is erased everywhere else |
| DfuFlash.NothingToUpload | external/libpybricks/micropython/tools/pydfu.py:601-609 | a file refused or empty is not written, a mass erase asked for has happened all the same |

## Left out

- Link: the checks for null arguments and the default timeout of a request; initialisation exists as steps of the transition system only, not as an imperative method.
- Link: the wait for receivers in shutdown is one step, enabled when the lifecycle mutex is free and nobody receives; a counter increment belongs to the step of the block beside it.
- Link: the device registry (device type, clearing on shutdown) appears only in `Locks`, as lock operations.
- Link: the handshake bytes before the legacy HELLO, which end in acceptance or refusal with an arbitrary session; the caller closing the descriptor after a failed initialisation.
- Link: getters that look up the status outside its mutex, and the same look-up in a motor count reset: the reset is one step, taken while the status exists.
- Locks: a device that is open already is opened without a request and conflicts with nobody; which of the two an opening meets is part of the call.
- Locks: waiting on a condition is giving the mutex up and taking it again; that somebody signals the condition is not part of it.
- Status: sensor values that are floating point stay opaque bytes.
- Status.OverlayTwice: two frames naming different ports are covered by the definition of the overlay, not by this lemma.
- Transport: switching to normal mode with a non-empty buffer, which does not flush.
- Transport: opening, polling, discarding input and closing are operating-system calls; reads and writes return any positive length or an error.
- LinkTheorems.AckedReturnWasAnswered: for commands other than 0, or in v2 mode; `LinkScenarios.CommandZeroReturnsUnanswered` shows the rest can fail. Completion is sound, not complete: a matched ACK may still end in a timeout when a HELLO clears the slot before the waiter wakes.
- LinkProgram.Caller.Ask: gives no result where a mutex is never given up by the other threads.
- Frame.ReceiveAll: counts framing errors up to dispatch; a v2 frame with a good checksum and an invalid port raises one more there (`LinkBlocks.LinkState.ProcessCommand`).
- Dfu: CRC-32 and the decoding of target names are parameters; the round trip asks that the builder's own name decodes. Signatures, versions and the size in the prefix are not checked by the reader and so not by the model.
- Dfu: `parse` of the builder, which walks the same structure to print it; the device string of `build` is already two numbers.
- Flash: USB transfers and status polls, progress output and command-line parsing; the struct errors for addresses beyond 32 bits.
- FlashLayout: splitting the layout string with a regular expression.
- Thin wrappers in the color, motor, force, ultrasonic and hub files, the sample programs and the serial test: they marshal fields and forward.
