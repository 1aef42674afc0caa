# BitBox02 firmware: a verified model

This project models the stateful core of the BitBox02 firmware in Dafny and proves what it keeps over
every run. Three parts of the firmware are covered, and three small ones.

**The USB transport and its lock.** `Queue`, `Timeouts`, `UsbFrame`, `UsbPacket` and `U2fPacket` are the
ring buffer, the table of channel timeouts that both interfaces share, the cutting and reassembling of
messages in 64-byte reports, and the two frame handlers, as classes over arrays; `TimeoutTheorems` says
which channels are timed over every run. `SharedPacket` is the one packet buffer between
the interrupt handlers and the main loop, as a machine that can be interrupted between any two
statements, and `Delivery` joins it with the frame handlers of both interfaces. `Device`, `AsyncUsb`, `UsbLock`, `Hww`, `U2fApp`, `U2fRequests` and `MainLoop` define the
lock protocol of the HWW and U2F stacks on values: one step per main-loop event, where `Abort` ends the
run. `Firmware` is the same code in place, a class whose fields are the C globals: its
handlers are proved against the steps of the machine, and its entry points keep the invariants and
abort exactly for the listed causes. `LockTheorems` and `ConfirmTheorems` hold the results about runs.

**The keystore.** `Cipher` is the authenticated encryption. `Keystore` is unlocking, storing a seed and
resetting as a machine that runs one statement at a time, because the power can be cut between any
two. `KeystoreDevice` is the same code as methods on the globals. `KeystoreTheorems` holds the results.

**The bootloader.** `Bootloader` has the flashing session, the signature loops and the boot data, and
`BootloaderTheorems` what every run of commands and resets keeps.

**Besides.** `Der` is the signature encoder of U2F, `Multisig` the table of account names in flash, and
`Gestures` the running velocity of a touch slider.

What the code cannot decide itself is a parameter: user answers, polls of the Rust executor, failures
of flash, SmartEEPROM and secure chip, random values, and what a failed flash write leaves behind.
Hashes, HMAC, the block cipher, key stretching and ECDSA verification are functions passed in. About
them only this is assumed: output lengths, that decrypting a block undoes encrypting it, and that
different secrets never agree on a tag; `Cipher.AssumptionsAreMet` and `KeystoreTheorems.IdealExists`
show that the assumptions can be met.

Where code and documentation, or code and expectation, disagree, the model follows the code:

- The Rust executor's `cancel` drops a running task but keeps an unread result. So "HWW holds the lock
  exactly while a task is running or has an unread result" is false. `StepKeepsHwwExact` says exactly
  when it survives a step, `LostResultAborts` gives the run in which it does not. A task that has
  handed out an intermediate response and awaits the next request does not hold the lock.
- The comment in queue.c promises room for a packet of maximum size (7609 bytes). One slot stays free,
  so it is 117 reports or 6901 bytes (`FitsEmptyQueue`).
- Unpadding accepts a zero pad byte, which RFC 5652 does not allow (`ZeroPadByte`; `AcceptedPadding` has
  the exact condition).
- The DER encoder looks at the byte after a number to decide about its sign byte when the number is zero,
  for S the byte after the signature. So the encoding of a zero is well formed exactly if the top bit of
  that byte is set (`Der.EncodeRoundTrip`).
- Stored versions can go back to zero after a reset in the middle of a write of the boot data.
  `ResetKeepsVersions` gives the exact condition and `TornWriteLosesVersions` the commands.
- Account names past 30 bytes are cut after the duplicate test, so two accounts can get one name
  (`OkKeepsInjective` has the exact condition, `LongNamesCollide` an instance), and then the later entry is
  told that its own name is a duplicate (`OldNameRefines`). An erased entry has no end
  of string, so a name of 63 bytes of 0xFF and more can be refused as a duplicate of it (`SetRefines`).
- After an erase that answers OK only the first page of every second padding chunk is known to be empty,
  and an erase for an odd number of chunks takes in the 4 kB after the app unless the last chunk already
  starts with an empty page (`EraseLeaves`).
- The velocity window of a slider is not cleared when one finger is lifted while the other stays, so
  early velocities of the next gesture can include old moves (`StaleWindow`, `StaleExactly`).
- The timeouts of U2F channels are also started by initial frames on the HWW interface, in the same three
  slots (`RunKeepsTimed`). Their counter has eight bits, so a channel left unserviced for 256 ticks is not
  told (`ComesRound`, `AnsweredExactly`).
- An unlock call on an unlocked device clears what is retained exactly if it uses up the last attempt
  (`UnlockWhileUnlocked`).

`dafny verify dfyconfig.toml` checks the whole project.

## Model

| member | source | states |
|---|---|---|
| LockTheorems.RegisterStep | src/u2f.c:785-811 | a register request keeps the lock invariant, and aborts exactly if it comes after a refresh with the keystore locked again, or retries a confirmation with another app id |
| LockTheorems.AuthenticateStep | src/u2f.c:839-865 | the same for an authenticate request, which must also pass its sanity check to reach the confirmation |
| LockTheorems.U2fMsgStep | src/u2f.c:893-924 | every U2F message the arbitration lets through keeps the lock invariant and aborts exactly for the causes in `AbortCause` |
| LockTheorems.U2fPacketStep | src/usb/usb_processing.c:269-297 | every packet for the U2F stack, let through or not, keeps the invariant and leaves HWW's hold on the lock alone |
| LockTheorems.HwwPacketStep | src/hww.c:109-213 | every packet for the HWW stack keeps the invariant; it aborts exactly if a result was lost and the request is NEW or RETRY |
| LockTheorems.StepKeepsLock | src/usb/usb_processing.c:269-341 | every event keeps: U2F holds the lock iff `locked`, iff exactly one of reg/auth is non-idle, and `last_cmd` names it; the abort conditions are complete and exact |
| LockTheorems.StepKeepsHwwExact | src/usb/usb_processing.c:329-341 | HWW holds the lock iff a request of its owes the host a response, and an event preserves this iff it is not the watchdog giving up on an unread result |
| LockTheorems.RunKeepsLock | src/usb/usb_processing.c:269-341 | in every state of every run the invariant holds, and a run aborts exactly if it meets a listed cause, for the first one it meets |
| LockTheorems.OnlyExcepted | src/usb/usb_processing.c:440-459 | the double-lock, busy-but-not, arbitration and bad-status aborts are never that cause |
| LockTheorems.RunExact | src/hww.c:109-213 | over every run in which no result is lost, the lock is exact for both stacks and only the three U2F aborts remain |
| LockTheorems.BootIsExact | src/firmware_main_loop.c:27-53 | the state at power on satisfies the invariant |
| LockTheorems.LostResultState | src/rust/bitbox02-rust/src/async_usb.rs:211-218 | a concrete run: cancelling keeps an unread result, so the watchdog frees the lock while a response is still owed |
| LockTheorems.LostResultAborts | src/hww.c:109-144 | after that run a RETRY ends in unlock-while-free and a NEW in the executor's wrong-state panic |
| LockTheorems.TimeoutFrees | src/usb/usb_processing.c:329-341 | after more than five ticks the timeout test of the stack that holds the lock frees it and drops its confirmation and unlock workflows; the test of the other stack changes nothing |
| LockTheorems.WatchdogFrees | src/usb/usb_processing.c:344-370 | so one round of both checks always leaves the lock free, without aborting |
| LockTheorems.BlockedChangesNothing | src/usb/usb_processing.c:269-297 | a packet the arbitration stops changes no state at all and is answered busy or conditions-not-satisfied |
| MainLoop.RunConcat | src/firmware_main_loop.c:27-53 | the run of two event sequences is the run of the second from where the first ended, aborts included |
| ConfirmTheorems.StepConfirm | src/u2f.c:409-702 | every event leaves, starts, drops, answers or uses up the confirmation on screen, and uses it up iff it sends a success response |
| ConfirmTheorems.ConfirmStepKeeps | src/u2f/u2f_app.c:191-239 | such a step keeps every signature justified by an accepted, unshared confirmation of the same kind and app id |
| ConfirmTheorems.RegisterConfirm | src/u2f.c:409-522 | the register machine makes only such steps, on every path |
| ConfirmTheorems.AuthenticateConfirm | src/u2f.c:568-702 | the authenticate machine makes only such steps, on every path |
| ConfirmTheorems.RunConfirmed | src/u2f.c:409-702 | over every run, with timeouts, retries and aborts: each success for app A uses exactly one confirmation of the same type and A, started and accepted earlier and never used again |
| ConfirmTheorems.RunSuccesses | src/u2f.c:447-702 | over every run the success responses sent to the host are exactly the signatures of which that is said, in order |
| Firmware.Firmware.constructor | src/usb/usb_processing.c:412-437 | the globals at power on satisfy both invariants |
| Firmware.StepValid | src/usb/usb_processing.c:269-341 | every event keeps the lock and the confirmation invariant together, and aborts exactly for its listed cause |
| Firmware.Firmware.ArbitrateHww | src/usb/usb_processing.c:269-297 | on the globals in place: keeps both invariants, aborts exactly for the causes listed for an HWW packet, and otherwise leaves state and reply of the machine's event |
| Firmware.Firmware.ArbitrateU2f | src/usb/usb_processing.c:269-297 | the same for a U2F packet through all its handlers |
| Firmware.Firmware.CheckLockTimeout | src/usb/usb_processing.c:329-341 | the same for the timeout test, which never aborts |
| Firmware.Firmware.U2fProcess | src/u2f.c:1024-1039 | the same for the background processing, which aborts exactly if unlocking failed |
| Firmware.Firmware.Ticks | src/usb/usb_processing.c:392-398 | any number of timer interrupts keep both invariants and are the run of as many tick events |
| Firmware.Firmware.UsbProcessHww | src/usb/usb_processing.c:344-370 | the packet, if any, and the timeout test, with timer interrupts before each, are the run of these events and keep both invariants |
| Firmware.Firmware.UsbProcessU2f | src/usb/usb_processing.c:344-370 | the same for the U2F stack |
| Firmware.Firmware.LoopOnce | src/firmware_main_loop.c:27-53 | one round of the main loop with timer interrupts between its parts is the run of its events in order, keeps both invariants, and aborts exactly for the first listed cause it meets |
| Firmware.Serve | src/firmware_main_loop.c:27-53 | the firmware from power on, over any number of rounds with any packets, answers and timer ticks, keeps both invariants until it ends in one of five aborts |
| SharedPacket.StepKeepsInv | src/usb/usb_processing.c:196-231 | with an interrupt possible between any two statements: `has_packet` implies `in_packet_queued`, never both stacks have a packet, and what is buffered is exactly what is still to be processed |
| SharedPacket.ExactlyOnce | src/usb/usb_processing.c:304-319 | for any interleaving, accepted packets are handed to their stack once, in order and unaltered, the buffered one stays there until it is dropped, also while its stack works on it, and at loop boundaries queued and has-packet are equivalent |
| SharedPacket.BlankGivesMeant | src/usb/usb_processing.c:144-150 | a packet built in a zeroed buffer is the message followed by zeros |
| SharedPacket.RefusedTouchesNothing | src/usb/usb_processing.c:196-211 | an enqueue is refused iff a packet is in flight, and then changes nothing |
| Queue.PushRepresents | src/queue.c:110-119 | writing at `end` and stepping it appends one item, keeps the others, and spares the slot on loan |
| Queue.PullRepresents | src/queue.c:87-96 | stepping `start` removes the oldest item and lends its slot |
| Queue.WriteSlot | src/queue.c:110-119 | writing one slot changes no other |
| Queue.NextIndex | src/queue.c:87-119 | the offset after a slot is the next slot's, around the end of the buffer |
| Queue.Ring.constructor | src/queue.c:64-75 | an empty FIFO of QUEUE_SIZE / item size slots, for every item size that divides the buffer |
| Queue.Ring.Clear | src/queue.c:48-52 | the FIFO is empty and nothing is on loan |
| Queue.Ring.Push | src/queue.c:110-119 | appends the item iff fewer than slots - 1 are queued, otherwise changes nothing; never overwrites what the last pull returned |
| Queue.Ring.Pull | src/queue.c:87-96 | fails iff empty, otherwise takes the oldest item off and returns where it lies |
| Queue.Ring.Peek | src/queue.c:133-141 | fails iff empty, otherwise shows the oldest item |
| Queue.Ring.LoanIsIntact | src/queue.c:87-96 | the slot returned by a pull holds that item after any pushes, until the next pull or clear |
| UsbFrame.ProcessKeepsReassembling | src/usb/usb_frame.c:45-119 | each frame keeps offset == min(len, 57 + 59 * seq), offset <= len <= 7609 and seq <= 128; a continuation that is needed always fits the buffer, so its second bound test never fires |
| UsbFrame.ReceiveKeepsReassembling | src/usb/usb_frame.c:192-202 | this holds after every sequence of frames: no overrun, no sequence wrap |
| UsbFrame.ContsLength | src/usb/usb_frame.c:125-166 | the number of continuation frames |
| UsbFrame.FitsEmptyQueue | src/queue.c:34-35 | the frames of a message fit an empty queue iff it has at most 6901 bytes |
| UsbFrame.InitStep | src/usb/usb_frame.c:45-87 | an initial frame starts the message with its first bytes, length, command and channel |
| UsbFrame.ContStep | src/usb/usb_frame.c:92-119 | the next continuation frame of a message is accepted and extends it by its bytes |
| UsbFrame.RoundTrip | src/usb/usb_frame.c:45-166 | for every channel, command with bit 7 set and payload up to 7609 bytes, the frames sent are each accepted, need more data until exactly the last, and rebuild payload, length, command and channel |
| UsbFrame.Assembler.constructor | src/usb/usb_frame.c:192-202 | an idle receiver |
| UsbFrame.Assembler.Reset | src/usb/usb_packet.c:33-37 | an idle receiver again |
| UsbFrame.Assembler.ReadData | src/usb/usb_frame.c:36-40 | appends the bytes to what was received |
| UsbFrame.Assembler.Init | src/usb/usb_frame.c:45-87 | does to the buffer and counters what the assembly function says, with its error, keeps the reassembly invariant, and starts a timeout iff the frame begins a message that is not a vendor's |
| UsbFrame.Assembler.Continue | src/usb/usb_frame.c:92-119 | likewise for continuation frames |
| UsbFrame.Assembler.ProcessFrame | src/usb/usb_frame.c:192-202 | likewise for any frame |
| UsbFrame.Reply | src/usb/usb_frame.c:125-166 | succeeds iff all frames fit, and pushes exactly the frames of the message, up to the first that does not fit |
| UsbPacket.ForeignFrame | src/usb/usb_frame.c:47-64 | a frame of another channel is answered busy and changes no assembly field iff it does not preempt |
| UsbPacket.RestNonInterference | src/usb/usb_packet.c:64-108 | the rest of a message survives any interleaving with foreign frames that do not preempt |
| UsbPacket.NonInterference | src/usb/usb_packet.c:64-108 | whatever frames of other channels are interleaved, none of them a preempting channel initialization, the message is delivered unchanged by its last frame and each foreign frame is answered busy |
| UsbPacket.Handler.constructor | src/usb/usb_packet.c:33-37 | nothing being received, nothing queued |
| UsbPacket.Handler.ResetState | src/usb/usb_packet.c:33-37 | drops the unfinished message and the queued replies |
| UsbPacket.Handler.QueueError | src/usb/usb_packet.c:45-48 | queues one error report, or none if the queue is full |
| UsbPacket.Handler.ProcessFrame | src/usb/usb_packet.c:64-108 | updates assembly, queue and the shared timeouts as the frame handler function says, in every error case |
| UsbPacket.PullInto | src/queue.c:87-105 | one report goes from the queue through the receiver |
| UsbPacket.DeliverQueued | src/queue.c:87-105 | pulling the queued reports into an idle receiver empties the queue and gives it the message |
| UsbPacket.ThroughTheRing | src/usb/usb_frame.c:125-166 | a reply on an empty queue succeeds iff it has at most 6901 bytes, and then the pulled reports rebuild the message |
| Timeouts.ServiceAnswersOnce | src/usb/usb_processing.c:347-352 | the timeout loop answers each expired channel once however many slots it holds, frees exactly the slots of expired channels and leaves the other counters alone |
| Timeouts.DisableFrees | src/u2f/u2f_packet.c:45-53 | disabling a due channel leaves fewer active slots |
| Timeouts.DisableUnexpires | src/u2f/u2f_packet.c:45-53 | disabling a channel un-expires that channel and no other |
| Timeouts.FirstDue | src/u2f/u2f_packet.c:106-115 | the slot found is due and none before it is |
| U2fPacket.FrameTouchesOwnSlots | src/u2f/u2f_packet.c:135-182 | a frame leaves the timeouts of third channels alone, all timeouts if it is ignored or answered busy, and stops timing the channel of a message that is finished or dropped; starting a timeout included |
| U2fPacket.Handler.Finish | src/u2f/u2f_packet.c:158-174 | a complete message is handed over or answered busy, and its channel is no longer timed |
| Timeouts.EnabledTimes | src/u2f/u2f_packet.c:95-104 | a channel is timed after that iff it was timed before or a slot was free, and no other channel changes |
| Timeouts.Timers.constructor | src/u2f/u2f_packet.c:25-34 | no channel is timed |
| U2fPacket.Handler.constructor | src/u2f/u2f_packet.c:58-68 | nothing being received |
| Timeouts.Timers.Enable | src/u2f/u2f_packet.c:95-104 | times the channel from zero in the first unused slot, if there is one |
| Timeouts.Timers.Disable | src/u2f/u2f_packet.c:45-53 | frees exactly the slots of the channel |
| Timeouts.Timers.Restart | src/u2f/u2f_packet.c:36-43 | zeroes exactly the counters of the channel |
| Timeouts.Timers.Get | src/u2f/u2f_packet.c:106-115 | the channel of the first due slot, if any |
| Timeouts.Timers.Tick | src/u2f/u2f_packet.c:117-124 | counts each active slot up, modulo 256 |
| U2fPacket.Handler.ResetState | src/u2f/u2f_packet.c:63-68 | drops message and replies and stops timing the channel |
| U2fPacket.Handler.ProcessFrame | src/u2f/u2f_packet.c:135-182 | updates assembly, timeouts and queue as the frame handler function says, in every error case |
| U2fPacket.Handler.Timeout | src/u2f/u2f_packet.c:126-133 | stops timing the channel, drops its unfinished message and queues one timeout error |
| U2fPacket.Handler.ServiceTimeouts | src/usb/usb_processing.c:347-352 | ends after at most three rounds, as the service function says, and drops the unfinished message iff its channel was answered |
| TimeoutTheorems.FrameKeepsTimed | src/u2f/u2f_packet.c:135-182 | each frame keeps the record of which message is timed exact |
| TimeoutTheorems.RunKeepsTimed | src/usb/usb_frame.c:66-87 | over every run of frames on both interfaces, ticks and service rounds: a message that is not a vendor's is timed while it is received iff its channel had a slot or one was free at its initial frame, or the HWW interface has since started one for the same channel |
| TimeoutTheorems.PreemptedKeepsSlot | src/usb/usb_frame.c:53-58 | a frame of another channel that takes the receiver over is a preempting channel initialization and leaves the slot of the channel it cuts short as it was |
| TimeoutTheorems.RunCounts | src/u2f/u2f_packet.c:106-124 | while nothing of a channel is accepted its slot counts the ticks modulo 256, whatever else arrives, until it is answered |
| TimeoutTheorems.PreemptedIsAnswered | src/usb/usb_processing.c:347-352 | a channel that was cut short is answered with a timeout by the next service round at the latest, over runs of any length, if the ticks modulo 256 have come to five or more |
| TimeoutTheorems.AnsweredExactly | src/u2f/u2f_packet.c:117-124 | after k ticks without service a channel is answered iff k modulo 256 is at least five |
| TimeoutTheorems.ComesRound | src/u2f/u2f_packet.c:117-124 | so a channel left alone for 256 ticks is not told |
| Delivery.FrameKeepsInv | src/usb/usb_packet.c:64-108 | a frame on either interface, with the shared buffer's own answer to a complete message, keeps handed-over messages and accepted packets the same |
| Delivery.CompleteIsHandedOver | src/usb/usb_processing.c:196-211 | a complete message is handed over iff no packet is waiting or being dropped; otherwise its host is told busy |
| Delivery.EveryMessageArrives | src/usb/usb_processing.c:196-319 | for any frames on both interfaces and any interleaving with the main loop, every message handed over reaches the stack of its interface once, whole and in order, and at most the last is still on its way |
| Der.EncodeRoundTrip | src/u2f.c:310-368 | for every signature the encoding has at most 72 bytes, and a decoder of the standard gets exactly R and S back iff each is non-zero or followed in memory by a byte with its top bit set; otherwise it rejects |
| Der.IntegerRoundTrip | src/u2f.c:310-368 | a stripped number is a minimal non-negative INTEGER for that number, unless its content is empty |
| Der.SkipZeros | src/u2f.c:310-368 | the index of the first non-zero byte |
| Der.CopyNumber | src/u2f.c:310-368 | copies the remaining bytes and counts them in the length byte |
| Der.PutHead | src/u2f.c:310-368 | writes tag and length, and the sign byte iff the top bit is set |
| Der.PutInteger | src/u2f.c:310-368 | appends the INTEGER of one number to the output |
| Der.PutBody | src/u2f.c:314-364 | both INTEGERs follow a sequence header |
| Der.LengthBytes | src/u2f.c:366-367 | the two length bytes give the length of the sequence |
| Der.SigToDer | src/u2f.c:310-368 | fills the buffer with exactly the encoding and returns its length, for every signature and every byte after it |
| Cipher.CbcRoundTrip | src/cipher/cipher.c:50-87 | CBC decryption undoes CBC encryption (section 6.2 of NIST SP 800-38A) |
| Cipher.PadRoundTrip | src/cipher/cipher.c:50-87 | unpadding undoes padding (section 6.3 of RFC 5652) for every message |
| Cipher.AcceptedPadding | src/cipher/cipher.c:142-158 | what unpadding accepts is the padding of RFC 5652 iff it does not end in a zero byte |
| Cipher.ZeroPadByte | src/cipher/cipher.c:142-158 | a string that ends in a zero byte is taken whole |
| Cipher.AesRoundTrip | src/cipher/cipher.c:125-164 | decryption of an encrypted message gives it back iff it has at most 175 bytes |
| Cipher.RoundTrip | src/cipher/cipher.c:89-207 | encryption succeeds iff the message has at most 200 bytes, the ciphertext has 16 * (n / 16) + 64, and decryption gives the message back up to 175 bytes and refuses from 176 to 200 |
| Cipher.WrongSecret | src/cipher/cipher.c:166-207 | under any other secret decryption refuses |
| Cipher.AssumptionsAreMet | src/cipher/cipher.c:33-46 | the assumptions about hash and block cipher can hold together |
| Cipher.EncryptPadded | src/cipher/cipher.c:50-87 | the padding loop fills the buffer so that its CBC encryption is that of the padded message; past 200 bytes it refuses |
| Cipher.StripPadding | src/cipher/cipher.c:125-164 | the padding check accepts and strips exactly as specified, a zero pad byte included |
| Cipher.DecryptPadded | src/cipher/cipher.c:125-164 | computes the padded CBC decryption, or refuses |
| Cipher.AesHmacEncrypt | src/cipher/cipher.c:89-122 | computes encrypt-then-authenticate, or refuses a wrong output length |
| Cipher.AesHmacDecrypt | src/cipher/cipher.c:166-207 | computes verify-then-decrypt, or refuses |
| KeystoreTheorems.RunKeepsAttempts | src/keystore.c:441-500 | over every run, power cuts between any two statements included: at most ten passwords are evaluated between successful unlocks or resets, the counter never exceeds ten, neither counter abort happens, and every wrong-password reply gives ten minus the counter, between one and nine |
| KeystoreTheorems.StepKeepsAttempts | src/memory/bitbox02_smarteeprom.c:117-162 | the counter runs ahead of the evaluations at every statement, and the last wrong-password reply stays true |
| KeystoreTheorems.IncorrectPasswordReply | src/keystore.c:489-499 | where the wrong-password reply comes from; the tenth wrong password goes to the reset instead |
| KeystoreTheorems.DecryptsToStoredSeed | src/keystore.c:233-269 | whatever password, decryption refuses or gives the stored seed |
| KeystoreTheorems.CopiesStoredSeed | src/keystore.c:87-115 | on an unlocked device a copy gives the stored seed, or nothing if the chip fails |
| KeystoreTheorems.UnlockKeepsSeed | src/keystore.c:441-500 | counting, evaluating and reporting an attempt keep the seed invariant |
| KeystoreTheorems.AdmitKeepsSeed | src/keystore.c:380-400 | retaining or comparing the seed keeps it, whichever chip or salt call fails |
| KeystoreTheorems.ResetKeepsSeed | src/reset.c:47-85 | every statement of a reset keeps it |
| KeystoreTheorems.StoreKeepsSeed | src/keystore.c:291-336 | every statement of storing a seed keeps it |
| KeystoreTheorems.RunKeepsSeed | src/keystore.c:291-537 | in every reachable state an unlocked device retains a ciphertext of the stored seed, bip39-unlocked implies unlocked, and the seed-changed and length aborts never happen |
| KeystoreTheorems.UnlockStatementKeepsRetained | src/keystore.c:441-500 | on an unlocked device no statement of an unlock call before a reset changes what is retained |
| KeystoreTheorems.UnlockWhileUnlocked | src/keystore.c:441-500 | a whole unlock call on an unlocked device, whatever the password and whatever fails, leaves it unlocked with what it retains iff the call does not use up the last attempt, that is unless no attempt is left, or the tenth is counted and the password is wrong |
| KeystoreTheorems.ResetIsDecided | src/keystore.c:449-499 | whether a call goes on to the reset is settled by the counter, the write of the counter and the password, and no statement changes it |
| KeystoreTheorems.ResetErases | src/reset.c:47-85 | a reset that comes to its end has erased the seed, given a new salt root, emptied the counter and locked the device, whatever the hardware did on the way |
| KeystoreTheorems.UsedUpIsWiped | src/keystore.c:449-499 | an unlock call that uses up the last attempt leaves the device wiped when it comes to rest |
| KeystoreTheorems.CallKeeps | src/keystore.c:291-537 | a call from a good idle state ends in a good state |
| KeystoreTheorems.StoreAnswersFine | src/keystore.c:291-336 | a store call answers OK only if the flash then holds the very seed it was given under the very password it was given, openable with the present chip keys and salt |
| KeystoreTheorems.StepStoresThem | src/keystore.c:291-336 | every statement of the call carries the caller's seed and password on |
| KeystoreTheorems.StoreSucceeds | src/keystore.c:291-336 | with obliging hardware storing answers OK iff the seed has 16, 24 or 32 bytes and the device is not initialized |
| KeystoreTheorems.StepKeepsHolds | src/keystore.c:291-500 | nothing but a store or a reset takes it away |
| KeystoreTheorems.RightPasswordOpens | src/keystore.c:233-269 | decryption gives the stored seed iff the password stretches to the key the blob was made with and the chip obliges |
| KeystoreTheorems.UnlockRuns | src/keystore.c:441-500 | with a password that opens the seed, an attempt left and no fault, the unlock runs to OK with all ten attempts back |
| KeystoreTheorems.UnlocksExactly | src/keystore.c:441-500 | an unlock call unlocks a locked device only if the password opens the stored seed, whatever the hardware does, and with an attempt left and obliging hardware iff it does |
| KeystoreTheorems.StoreUnlockCopy | src/keystore.c:87-115 | a seed for which a store call answered OK survives any run without another store or reset; then the password of that call unlocks in eight statements and the copy gives the bytes of that call |
| KeystoreTheorems.OpensWithItsKeyOnly | src/memory/memory.c:464-494 | every seed ciphertext fits its 96-byte field and opens with its key only |
| KeystoreTheorems.SeedFits | src/memory/memory.c:464-494 | stored and retained ciphertexts always fit their 96-byte buffers |
| KeystoreTheorems.EveryReachableState | src/keystore.c:291-537 | all of this holds in every state reachable from a factory device |
| KeystoreTheorems.CipherIsIdeal | src/cipher/cipher.c:89-207 | the modelled cipher meets what the keystore assumes of its cryptography |
| KeystoreTheorems.IdealExists | src/cipher/cipher.c:89-207 | so the assumption is satisfiable |
| KeystoreTheorems.ProceedIsRun | src/keystore.c:441-500 | a call that is not cut short is one of these runs |
| KeystoreDevice.Device.CopySeed | src/keystore.c:87-115 | the decrypted retained seed, or nothing on a locked device or a failing chip or salt |
| KeystoreDevice.Device.GetAndDecryptSeed | src/keystore.c:233-269 | the stored seed under the stretched password, or the error of the first thing that fails, in order |
| KeystoreDevice.Device.UpdateKeys | src/reset.c:51-60 | up to five tries to change the chip keys, then an abort; the keys are those of the last try |
| KeystoreDevice.Device.ClearU2fCounter | src/reset.c:62-71 | up to five tries to reset the counter, then an abort |
| KeystoreDevice.Device.ResetMemory | src/memory/memory.c:353-375 | erases the flash chunk and gives it a new salt root, or aborts, possibly between the two |
| KeystoreDevice.Device.DisableEepromAndReboot | src/reset.c:77-81 | the device comes up locked with the attempt counter empty |
| KeystoreDevice.Device.Reset | src/reset.c:47-85 | locks, replaces the chip keys, erases and reboots, or ends in one of three aborts |
| KeystoreDevice.Device.CountAttempt | src/memory/bitbox02_smarteeprom.c:117-151 | the attempt is counted before the password is looked at, or refused when ten are used up |
| KeystoreDevice.Device.TryPassword | src/keystore.c:464-468 | one evaluation: the stored seed, a wrong password, or the error returned at once |
| KeystoreDevice.Device.RetainSeed | src/keystore.c:380-400 | encrypts the seed under a fresh key stretched by the chip, or returns the error with only the key replaced |
| KeystoreDevice.Device.Compare | src/keystore.c:470-479 | an unlocked device compares instead of retaining, and aborts iff the seeds differ |
| KeystoreDevice.Device.Admit | src/keystore.c:469-486 | unlocks only after the seed is retained |
| KeystoreDevice.Device.Accept | src/keystore.c:469-488 | after the right password the counter is cleared, and only once the device is unlocked |
| KeystoreDevice.Device.ResetAttempts | src/memory/bitbox02_smarteeprom.c:153-162 | the counter is zero, or the write failed and the device aborts |
| KeystoreDevice.Device.ReportAttempts | src/keystore.c:489-499 | ten minus the counter, or the reset when none is left |
| KeystoreDevice.Device.Unlock | src/keystore.c:441-500 | the whole call ends in the state, reply or abort in which the machine's statements end |
| KeystoreDevice.Device.EncryptSeed | src/keystore.c:309-325 | the ciphertext of the seed under the stretched password, or the error of the first thing that fails |
| KeystoreDevice.Device.PrepareChip | src/keystore.c:299-308 | locks, refuses other seed sizes, then replaces the chip keys |
| KeystoreDevice.Device.WriteSeed | src/memory/memory.c:464-478 | the flash is seeded with the ciphertext, or unchanged |
| KeystoreDevice.Device.VerifySeed | src/keystore.c:271-289 | true iff the stored ciphertext decrypts to the seed |
| KeystoreDevice.Device.UndoStore | src/keystore.c:329-334 | a seed that cannot be read back is erased |
| KeystoreDevice.Device.StoreSeed | src/keystore.c:291-336 | the whole call ends in the state and reply in which the machine's statements end |
| KeystoreDevice.Device.Perform | src/keystore.c:291-537 | any call, to its end, is a run of the machine without power cuts |
| KeystoreDevice.Serve | src/keystore.c:291-537 | a device from the factory, given any calls with any failures and power cycles between them, keeps the attempts bounded, holds only the stored seed when unlocked, and keeps both ciphertexts in their buffers |
| KeystoreDevice.FinishIsRun | src/keystore.c:441-500 | what the methods finish is a run of the machine without power cuts |
| Bootloader.CheckSignatures | src/bootloader/bootloader.c:495-523 | the loop accepts iff every non-empty slot rejects the random digest and verifies the hash, and at least two slots are non-empty |
| Bootloader.CheckKeys | src/bootloader/bootloader.c:495-523 | that threshold for the signing keys under the root keys |
| Bootloader.CheckFirmware | src/bootloader/bootloader.c:553-597 | both thresholds, for the keys and for the firmware under the keys |
| Bootloader.Loader.constructor | src/bootloader/bootloader.c:111-112 | a loader over given flash contents, with no session open |
| Bootloader.Loader.Write | src/bootloader/bootloader.c:384-428 | writes one chunk with read-back as the session function says, for every failure of the flash |
| Bootloader.Loader.EraseFirmware | src/bootloader/bootloader.c:437-473 | the erase loop does to the flash what the recursive specification says, for every failure |
| Bootloader.Loader.WriteSignatures | src/bootloader/bootloader.c:620-688 | stores new keys and signatures iff neither version goes back and both thresholds hold |
| Bootloader.Loader.ShowFirmwareHash | src/bootloader/bootloader.c:719-733 | changes the flag and nothing else, and only for values 0 and 1 that differ from it |
| Bootloader.Loader.Reset | src/bootloader/bootloader.c:888-894 | zeroes boot data that is not marked initialized, and starts the firmware iff it verifies |
| BootloaderTheorems.EraseLeaves | src/bootloader/bootloader.c:437-473 | an erase leaves the chunks of the new firmware alone; when it answers OK every second chunk of the padding starts with an empty page, and what follows the app is as it was iff the count is even or the last chunk started with an empty page, up to what the erasing leaves there |
| BootloaderTheorems.WriteTouchesOne | src/bootloader/bootloader.c:384-428 | a write touches no other chunk, answers OK only if the chunk holds the buffer, and keeps the session open iff it answers OK |
| BootloaderTheorems.RunHolds | src/bootloader/bootloader.c:384-473 | over any order and repetition of commands, each chunk whose write was last acknowledged holds exactly the buffer last acknowledged; an erase takes this back only for the chunks it makes padding |
| BootloaderTheorems.OnlyEraseOpens | src/bootloader/bootloader.c:437-473 | no command opens a session but a successful erase asking for chunks |
| BootloaderTheorems.RefusedUntilErase | src/bootloader/bootloader.c:384-428 | after a write that did not answer OK every later write is refused and changes nothing, until such an erase |
| BootloaderTheorems.ExecKeepsValid | src/bootloader/bootloader.c:771-824 | every command keeps the sizes of flash and boot data |
| BootloaderTheorems.StepKeepsTrust | src/bootloader/bootloader.c:620-733 | every command keeps versions, signed keys and signed running firmware, if its write of boot data is not torn |
| BootloaderTheorems.RunKeepsTrust | src/bootloader/bootloader.c:620-733 | over every run of commands and resets without torn writes neither version decreases, the signing keys are unset or carry at least two root signatures all of which verify, and started firmware is signed by the signing keys |
| BootloaderTheorems.FirstBoot | src/bootloader/bootloader.c:888-894 | the first boot of a blank device establishes this and does not start firmware |
| BootloaderTheorems.ResetKeepsVersions | src/bootloader/bootloader.c:888-894 | a reset keeps the versions iff the boot data is marked initialized or both are zero |
| BootloaderTheorems.TornWriteLosesVersions | src/bootloader/bootloader.c:719-733 | a concrete pair of commands: a reset in the middle of a write leaves the page erased, and the boot code sets the firmware version back to zero |
| Multisig.Memory.constructor | src/memory/memory.c:107-118 | erased flash satisfies the invariant and holds no account |
| Multisig.Memory.SetByHash | src/memory/memory.c:765-827 | the two search loops and the write do what the table function says, with its status |
| Multisig.Memory.GetByHash | src/memory/memory.c:829-845 | the search loop finds the first entry with the hash, if any |
| Multisig.ErasedTable | src/memory/memory.c:107-118 | an erased table stands for the empty map |
| Multisig.SetRefines | src/memory/memory.c:765-827 | for every table, hash and name a set is the operation on a finite map (invalid input; duplicate iff another hash owns the name; full iff 25 other hashes are stored and the name is new; otherwise the new map with the name cut to 30 bytes) iff the name is not the string a blank entry reads as, which starts with 63 bytes of 0xFF, and no earlier account of the same name shadows this one |
| Multisig.InjectiveNeverShadows | src/memory/memory.c:781-791 | an account is shadowed only in a table where two share a name |
| Multisig.OldNameRefines | src/memory/memory.c:781-791 | a name that is stored already is answered OK or duplicate by the first entry that has it; a shadowed account is told its own name is a duplicate |
| Multisig.BlankNameIsRefused | src/memory/memory.c:781-791 | such a name is refused as a duplicate although no account has it |
| Multisig.OkKeepsInjective | src/memory/memory.c:781-827 | a set that answers OK keeps the map injective iff no other account has the name, cut to 30 bytes |
| Multisig.ShortNamesNeverClash | src/memory/memory.c:781-791 | for names of at most 30 bytes the duplicate test ensures that |
| Multisig.RoomAt | src/memory/memory.c:801-815 | there is a blank entry iff fewer than 25 accounts are stored |
| Multisig.RunKeepsInjective | src/memory/memory.c:765-827 | over every sequence of sets with names of at most 30 bytes, failing writes included, the table stands for an injective map of at most 25 accounts |
| Multisig.RunRefines | src/memory/memory.c:765-827 | over every sequence of such sets that reach the flash it is exactly the map the same operations make |
| Multisig.GetLooksUp | src/memory/memory.c:829-845 | a lookup is a lookup in the map |
| Multisig.GetAfterSet | src/memory/memory.c:819-822 | after OK the lookup returns the given name iff it has at most 30 bytes, otherwise its first 30 |
| Multisig.LongNamesCollide | src/memory/memory.c:781-822 | a name past 30 bytes is accepted for two accounts, which then share the stored name |
| Gestures.Slider.constructor | src/touch/gestures.c:142-145 | a slider at rest with an empty window |
| Gestures.Slider.Reset | src/touch/gestures.c:142-145 | the same again, from any state |
| Gestures.Slider.Push | src/touch/gestures.c:104-109 | replaces the oldest move of the ring and keeps the running sum equal to the sum of the window |
| Gestures.Slider.Update | src/touch/gestures.c:96-118 | a touch shifts the window by one move, and the running sum is that of the window |
| Gestures.Slider.Read | src/touch/gestures.c:123-137 | a lifted finger ends the gesture one measurement later and leaves the window as it is |
| Gestures.Sliders.constructor | src/touch/gestures.c:84-89 | both sliders at rest |
| Gestures.Sliders.Detect | src/touch/gestures.c:294-301 | a new screen starts both sliders afresh, in the middle of a gesture too, before they are read |
| Gestures.Sliders.Measure | src/touch/gestures.c:259-292 | both sliders are read, the bottom one from the other end, and start afresh together iff no finger is left on either |
| Gestures.RingStep | src/touch/gestures.c:104-109 | overwriting one ring entry shifts the window and changes the sum by the difference |
| Gestures.WindowAfter | src/touch/gestures.c:96-118 | after any touches of a gesture the window holds its last moves, and older ones before them |
| Gestures.VelocityIsDistance | src/touch/gestures.c:104-109 | from the thirty-first touch on the velocity is the distance from where the finger was thirty touches ago |
| Gestures.EarlyVelocity | src/touch/gestures.c:104-109 | before that it is the distance from the start of the gesture iff the moves left over from earlier gestures cancel out |
| Gestures.RunHoldsMoves | src/touch/gestures.c:259-301 | over every run, new screens included, each window holds exactly the last thirty moves made since both sliders started afresh, and whenever both are free it is empty |
| Gestures.StaleExactly | src/touch/gestures.c:123-137 | over every run a gesture begins with old moves in its window only while the other slider is touched, and iff one of the last thirty moves of its own slider went anywhere |
| Gestures.StaleWindow | src/touch/gestures.c:123-137 | a concrete run: both fingers down, one moves and is lifted, the other stays, and the next gesture begins with the old move in its window |

## Left out

- SharedPacket.StepKeepsInv: `usb_processing_enqueue` and the dropping of a packet are steps on values, not methods, because an interrupt can come between their statements; the critical sections and volatile accesses of the C code are not modelled.
- BootloaderTheorems.RunKeepsTrust: needs that no write of boot data is torn; that is the condition under which the claim is true, see `TornWriteLosesVersions`.
- Multisig.RunKeepsInjective: needs names of at most 30 bytes; past that the claim is false, and `OkKeepsInjective` has the exact condition for one set.
- Gestures.Slider.Update: positions are bounded by 255, so the 16-bit velocity cannot wrap; the events that are emitted to the screens are left out.
- Cipher.EncryptPadded: the chaining of blocks is the specification's, as the C code calls a library for it; only the padding is a loop.
- Keystore: the bip39 seed and mnemonic are one success flag, so nothing is said about what the bip39 seed is; mixing host entropy into a new seed is not modelled.
- Replies are records of what is sent (status words, error codes, payloads), not byte layouts; key handles, attestation and the ECDSA signing itself are answers of the environment.
- Blocked U2F requests are answered on the stored channel, as in the code; no claim is made that every reply carries the channel of its request.
- The parsing of little-endian versions and of the signature record in the bootloader's input.
- Device name, noise pubkey slots, attestation data and the shared boot flags of memory.c: reads and writes of single fields.
- Screens, fonts, SD card, factory setup, drivers and hardware registers, and the Rust workflows beyond the executor states that the lock protocol sees.
