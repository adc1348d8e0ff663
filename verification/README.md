# Verified model of the game client's transport and prediction code

The client talks to its server over a TCP session and a reliable UDP session built on acknowledgements, frames
its messages with a length prefix, allocates packets from recycled 6000-byte chunks, and hides latency by
predicting its own player and interpolating the others.  This project models those parts and proves what they
keep over every run.  `dafny verify dfyconfig.toml` checks everything.

Code that changes state step by step is written twice: as a class with the source's fields and loops, and as
functions on values.  Each method's `ensures` ties the class to the functions; the theorems about whole runs and
interleavings are about the functions.

| files | what they model |
|---|---|
| `SerialNumber`, `Bits32` | the 16-bit sequence order and single-bit access |
| `ReceiveWindow`, `AckField` | the 1024-bit receive history, `_latestSeq`, and the 33-number acknowledgement |
| `PendingMap`, `SenderRuns`, `SilentPeer` | the pending map, its timed resends, and whole runs of the sender |
| `AckProtocol`, `FalseClaims`, `AckSoundness` | sender and receiver joined by a network that loses, duplicates and reorders, stale numbers included; exactly when acknowledgements can be trusted |
| `ReliableUdpSession` | the class, with the source's loops |
| `TcpSendQueue`, `TcpSession`, `TcpDelivery` | the send queue: interleavings of callers and completions; the class; messages end to end |
| `Framing`, `RecvBuffer` | the parser, the printer's format, the receive buffer and both receive paths |
| `SendBuffers`, `PacketPrinter`, `SendBufferChunk` | the allocator as a state machine; the packet printer on it; the chunk and the manager as classes |
| `TransformCompressor` | fixed-point packing of positions, rotations and velocities |
| `Prediction`, `PredictionRuns`, `PredictionErrors`, `SmoothingRounds`, `Player` | inputs, reconciliation and replay; whole runs; how far off the player is drawn; smoothing over many reports; the class |
| `MovementInterpolator` | the pruned snapshot window and interpolation |
| `Vectors`, `Options` | vectors, linear interpolation, optional values |

## Where the code does not do what it says or seems to promise

The model follows the code in each of these, and the members named prove it.

- History bits are never cleared.  A number inside the window is accepted exactly when no accepted number has its
  residue modulo 1024, so after 1024 acceptances the receiver never accepts or acknowledges again
  (`FreshAcceptedIffNotAliased`, `DeafAfter1024`, `InOrderPeer`).
- For the same reason an acknowledgement can cover a packet that never arrived: with more than 1024 numbers issued
  there is always such a run (`FalseAckHappens`).
- `MakeSendBufferImpl` does not write the UDP header's sequence field.  A packet sent unreliably, such as `C_ACK`,
  carries there whatever the recycled chunk held, which can be any number (`AnyNumberCanBeStale`), and the peer
  records it like a reliable one.  With `n` numbers issued, acknowledgements never erase what the peer has not
  accepted if and only if `n <= 1024` and the stale numbers are harmless (`SoundExactlyIf`, for stale numbers outside
  31744..64512; `SoundIffNoFalseClaim` for any); stale numbers up to `m` are safe exactly if neither `n` nor `m` exceeds 1024 (`SoundExactlyUpTo1024`).  That what is erased has really
  *arrived* takes more: no stale number may be one that is issued (`DeliverySoundIff`).
- `SendReliable` issues number 0 after 65535 others.  The peer never accepts it, so it is only ever erased falsely
  (`NumberZeroIsNeverAccepted`).
- A resend takes a new number and keeps the old entry, so an unanswered packet doubles its pending copies with
  each due update.  The sixth disconnects, but goes on resending (`SilentPeerDoubles`).
- A failed TCP write puts the batch back behind newer buffers and leaves the flag set.  No buffer is lost or
  duplicated, but nothing is ever written again while the session stays connected, so the changed order is never
  seen: what has been written is always exactly the first buffers pushed (`NothingLostOrDuplicated`,
  `StuckIffWriteFailed`, `StuckForever`, `WrittenIsFirstPushed`).
- A batch of empty buffers completes with 0 bytes, which disconnects (`EmptyBatchDisconnects`).
- `RecvBuffer::Clean` compacts when *more* than one buffer size is free; the comment there says when *less* is.
  With data left and no more than that free, cleaning never makes room (`RecvBuffer.RecvBuffer.Clean`).  Its
  `memcpy` has overlapping ranges exactly if less has been read than is unread, which ordinary input reaches
  (`CopyOverlapsIff`, `OverlapIsReached`).
- A size field smaller than the header does not disconnect; exactly then the unread bytes stop the parser for good
  (`StopsForeverIffMalformed`).
- A payload of 65536 bytes or more is refused, but a little less wraps the packet size and is written past the
  buffer (`PrintsExactly`).
- Closing a send buffer twice lets two live buffers overlap (`ClosingTwiceOverlapsIff`); no caller does it, and
  the run theorems are about runs in which none does.
- The comment on the height field promises heights up to 511.99.  The field is read back as a signed number, so a
  height survives if and only if it is below 256, and otherwise comes back 512 lower (`HeightRoundTripIff`).
- `PackRotation` is defined only for yaws within a turn (`RotationFitsIff`), but the input manager's yaw
  accumulates without wrapping (DummyClient/InputManager.cpp:102).
- `Player::Update` takes no lock.  A report handled between its push and its `ApplyInput` replays the input, which is
  then applied again (`ReportInBetweenAppliesTwice`); the error a report leaves is unchanged until the next if and
  only if no `Update` was under way when it came, or its step is no movement (`ErrorUnchangedIff`).
- Until the first report the player is drawn from the origin, not from where it spawned
  (`DrawnFromOriginUntilReport`).
- An acknowledgement older than one handled before loses the inputs between them: the snapped position is right
  if and only if those inputs amount to no movement (`SnapIsExactIff`).
- At the 32-bit wrap an acknowledgement can discard inputs never acknowledged, or keep acknowledged ones: the
  pending list is cut where it should be if and only if it does not straddle the wrap and, for an input no longer
  pending, begins above the acknowledged number (`ReportForgetsExactlyIff`; `WrapDiscardsUnacked` is a failing run).
- Smoothing replays inputs the rendered position contains already.  A right prediction stays right exactly if
  nothing unacknowledged moved the player, and repeated smoothing tends to an overshoot by the whole
  unacknowledged movement (`SmoothingIsExactIff`, `RepeatedSmoothing`, `ErrorFollowsUnseen`).
- Prediction turns keys with the yaw the server last reported; the yaw recorded in the input plays no part
  (`ReplayMoves`).
- A snapshot older than one already pruned breaks the window's agreement with the history
  (`SuffixKeptIffNotOlderThanDropped`).

## Model

| member | source | states |
|---|---|---|
| `SerialNumber.GreaterIsRfc1982` | ClientNetworkCore/Session.cpp:352-359 | the comparison used here and defined by a cast to `int16` at line 151 of Session.h is the serial number comparison of section 3.2 of RFC 1982 for 16 bits, and answers no both ways exactly for equal or antipodal numbers |
| `SerialNumber.GreaterIsTrueOrder` | ClientNetworkCore/Session.cpp:352-359 | on images of unbounded numbers less than half the range apart it is the true order |
| `Bits32.SetBitOnly` | ClientNetworkCore/Session.cpp:339-375 | `1 << k` sets and tests bit k and no other, bit 31 included |
| `Bits32.BitsByHalving` | ClientNetworkCore/Session.cpp:339-375 | which bit is which: bit 0 is the unit and bit k + 1 is bit k of half the word |
| `ReceiveWindow.LiftInvertsWrap` | ClientNetworkCore/Session.cpp:352 | every 16-bit arrival names exactly one unbounded number in the 65536-number horizon around the window |
| `ReceiveWindow.RecordRefines` | ClientNetworkCore/Session.cpp:350-361 | one arrival: the 16-bit code and the unbounded receiver decide alike and stay related |
| `ReceiveWindow.RunRefines` | ClientNetworkCore/Session.cpp:350-361 | over every run, across any number of wraps, the 16-bit window refines the unbounded one, and `_latestSeq` is the image of the maximum of 0 and everything accepted |
| `ReceiveWindow.RunRecoversTrueNumbers` | ClientNetworkCore/Session.cpp:350-361 | if no packet strays out of the horizon, the unbounded numbers recovered are the ones the peer meant |
| `ReceiveWindow.AcceptedAtMostOnce` | ClientNetworkCore/Session.cpp:352-360 | from any state the set bits grow by one distinct bit per acceptance, so at most 1024 are accepted and no number twice |
| `ReceiveWindow.FreshAcceptedIffNotAliased` | ClientNetworkCore/Session.cpp:352-356 | a number inside the window is accepted iff no accepted number shares its residue modulo 1024 |
| `ReceiveWindow.FullWindowStays` | ClientNetworkCore/Session.cpp:355-358 | a full history accepts nothing and never changes |
| `ReceiveWindow.DeafAfter1024` | ClientNetworkCore/Session.cpp:355-358 | after 1024 acceptances no continuation of the run is accepted |
| `ReceiveWindow.InOrderPeer` | ClientNetworkCore/Session.cpp:350-361 | a loss-free in-order peer has exactly its first 1024 packets accepted |
| `ReceiveWindow.RunsCompose` | ClientNetworkCore/Session.cpp:350-361 | the receiver's state is all that matters for later arrivals |
| `AckField.EncodeDecodeExact` | ClientNetworkCore/Session.cpp:331-379 | `HandleAck(latest, GenerateAckBitfield(latest))` looks up exactly `latest` and those of the 32 numbers before it, modulo 65536, whose history bit is set |
| `AckField.FieldInNumbers` | ClientNetworkCore/Session.cpp:363-379 | bit i - 1 of the field is set iff (latest - i) mod 65536 has its residue mod 1024 recorded |
| `AckField.CoversInNumbers` | ClientNetworkCore/Session.cpp:331-379 | encoding then decoding, with every number written out |
| `AckField.EarlierIsSmaller` | ClientNetworkCore/Session.cpp:370-371 | the `continue` in the encoder's loop is unreachable |
| `PendingMap.ResendAllAdds` | ClientNetworkCore/Session.cpp:501-509 | the unlocked half keeps every entry and adds a numbered copy per listed entry, in list order |
| `PendingMap.UpdateAddsOnePerDue` | ClientNetworkCore/Session.cpp:473-510 | an update removes no key, re-times and counts exactly the due entries, and adds exactly one new key per due entry |
| `PendingMap.AckErasesExactly` | ClientNetworkCore/Session.cpp:331-379 | on the pending map itself, handling what the peer encoded erases exactly the latest number and those of the 32 before it whose history bit is set, and changes no other entry |
| `SenderRuns.TakeThenInsert` | ClientNetworkCore/Session.cpp:314-326 | an uninterrupted `SendReliable` is taking a number and then inserting the entry |
| `SenderRuns.LedgerBalances` | ClientNetworkCore/Session.cpp:314-348 | in every interleaving of the callers' two half-steps with acknowledgements, scans, resends and disconnects that issues fewer than 65536 numbers: pending keys are those issued minus those erased and those still in a caller's hands, each under its own number, its retry count the number of updates that found it due, and the session is down iff dropped or some key reached six |
| `SenderRuns.SixDueScansDisconnect` | ClientNetworkCore/Session.cpp:484-497 | in every run, across any number of wraps: a pending entry's retry count is the number of updates that found it due since it was inserted, and once that is six the session is disconnected |
| `SenderRuns.ConnectedUntilSixth` | ClientNetworkCore/Session.cpp:484-497 | in every interleaving with fewer than 65536 numbers the session is connected iff nobody dropped it and no packet was found due six times |
| `SenderRuns.DueAfterATenth` | ClientNetworkCore/Session.cpp:482-490 | an update counts for a packet iff 0.1 or more has passed since it was sent or last counted |
| `SenderRuns.UninterruptedUpdate` | ClientNetworkCore/Session.cpp:473-510 | scan and resends in a row are `PendingMap.Update`: each listed packet's own buffer again, under the next number, at the update's time |
| `SenderRuns.HeaderCarriesLastNumber` | ClientNetworkCore/Session.cpp:316-319 | in every run a buffer's header carries the number last taken for it |
| `SilentPeer.SilentPeerDoubles` | ClientNetworkCore/Session.cpp:473-510 | n spaced updates without an acknowledgement turn one packet into 2^n pending copies, and the session is connected iff n is below six |
| `AckProtocol.EveryRunIsBacked` | DummyClient/ServerPacketHandler.h:104-119 | over a network that loses, duplicates and reorders, whatever stale numbers come in, every erased key shares its history bit with a number the peer accepted |
| `AckProtocol.NumberZeroIsNeverAccepted` | DummyClient/ServerPacketHandler.h:106-110 | number 0, which the sender issues at the wrap, is never accepted |
| `AckProtocol.WorldIsASenderRun` | ClientNetworkCore/Session.cpp:314-348 | seen from the sender, every run of the two sessions and the network is one of its own runs, with the same numbers issued and keys erased |
| `AckProtocol.LedgerBalancesHere` | ClientNetworkCore/Session.cpp:314-348 | so the ledger of pending keys and retries balances there too |
| `FalseClaims.RejectedLeaveNoTrace` | ClientNetworkCore/Session.cpp:350-361 | the accepted arrivals alone lead to the same window |
| `FalseClaims.FalseClaimIs` | ClientNetworkCore/Session.cpp:363-379 | an acknowledgement claims a number not accepted iff that number is within 32 below the one just accepted and another number with its history bit was accepted |
| `FalseClaims.NoFalseClaimIffHarmless` | ClientNetworkCore/Session.cpp:350-379 | with up to 1024 numbers and stale numbers outside 31744..64512, no false claim is possible iff no stale number is 1024 ahead of or behind an issued one that a receivable number can claim |
| `FalseClaims.ClimbingStaleNumbers` | ClientNetworkCore/Session.cpp:350-379 | stale numbers inside that range can carry the window round the wrap to a false claim |
| `FalseClaims.FalseClaimsAreShort` | ClientNetworkCore/Session.cpp:350-379 | a false claim takes at most 1024 acceptances of different numbers, so whether a set of numbers allows one is a finite question |
| `AckSoundness.SoundIffNoFalseClaim` | DummyClient/ServerPacketHandler.h:104-119 | for every set of stale numbers and fewer than 65536 issued, acknowledgements are sound over all runs iff the receiver alone cannot be led to a false claim |
| `AckSoundness.FalseAckHappens` | ClientNetworkCore/Session.cpp:352-358 | whatever the stale numbers, a run issuing 1025 numbers in which number 1 is erased and neither accepted nor arrived |
| `AckSoundness.SoundExactlyIf` | ClientNetworkCore/Session.cpp:331-379 | every key erased had been accepted, in all runs of up to n issued numbers, iff n <= 1024 and the stale numbers are harmless (stale numbers outside 31744..64512) |
| `AckSoundness.SoundExactlyUpTo1024` | ClientNetworkCore/Session.cpp:331-379 | stale numbers up to m are safe with up to n issued numbers iff neither exceeds 1024 or nothing is issued |
| `AckSoundness.DeliverySoundIff` | DummyClient/ServerPacketHandler.h:104-119 | every key erased belongs to a reliable packet that arrived, in all runs of up to n issued numbers, iff acknowledgements are sound and no stale number is in 1..n; for every n and every set |
| `ReliableUdpSession.ReliableUdpSession.SendReliable` | ClientNetworkCore/Session.cpp:314-329 | numbers, stamps, records and transmits, and changes nothing else |
| `ReliableUdpSession.ReliableUdpSession.HandleAck` | ClientNetworkCore/Session.cpp:331-348 | the 33-round loop erases exactly the covered keys |
| `ReliableUdpSession.ReliableUdpSession.CheckAndRecordReceiveHistory` | ClientNetworkCore/Session.cpp:350-361 | the result and the new window are those of the specification |
| `ReliableUdpSession.ReliableUdpSession.GenerateAckBitfield` | ClientNetworkCore/Session.cpp:363-379 | the loop computes the encoded field |
| `ReliableUdpSession.ReliableUdpSession.ScanPending` | ClientNetworkCore/Session.cpp:475-499 | the locked half, visiting the map in any order: the list holds the due keys once each, and the map and connection are those of the specification |
| `ReliableUdpSession.ReliableUdpSession.Update` | ClientNetworkCore/Session.cpp:473-510 | both halves together, for the list the scan produced |
| `ReliableUdpSession.ReliableUdpSession.AcknowledgePacket` | DummyClient/ServerPacketHandler.h:106-119 | an acknowledgement is produced iff the number is not 0 and is accepted, and it carries the number and the field of the updated history |
| `TcpSendQueue.InvHolds` | ClientNetworkCore/Session.cpp:28-154 | the invariant behind the results below, in every interleaving of callers, completions, errors and disconnects |
| `TcpSendQueue.PushedIsHanded` | ClientNetworkCore/Session.cpp:28-45 | in every interleaving the buffers pushed are those handed to `Send`, read off the steps alone, in the order in which the callers got the lock |
| `TcpSendQueue.WrittenAsHanded` | ClientNetworkCore/Session.cpp:28-132 | without a write error, written, in flight and queued buffers are those handed to `Send` |
| `TcpSendQueue.NothingHandedIsLost` | ClientNetworkCore/Session.cpp:28-153 | with write errors, the first buffers handed over have been written, and each is somewhere exactly once |
| `TcpSendQueue.SendIsWritten` | ClientNetworkCore/Session.cpp:28-132 | on a session at rest all steps of a `Send` can be taken and end with its buffer written and the session at rest |
| `TcpSendQueue.QueuedIsWrittenNext` | ClientNetworkCore/Session.cpp:200-215 | a completion writes everything queued next, or leaves the session at rest |
| `TcpSendQueue.DisconnectClears` | ClientNetworkCore/Session.cpp:184-198 | whatever disconnects a session leaves queue and batch empty and the flag clear |
| `TcpSendQueue.DisconnectedTakesNothing` | ClientNetworkCore/Session.cpp:30-31 | a disconnected session stays so: `Send` changes nothing, a caller on its way turns back, a completion starts no write |
| `TcpSendQueue.NoLostWakeup` | ClientNetworkCore/Session.cpp:28-45 | without a write error: at most one write outstanding, a non-empty queue has the flag set and a write in flight or one responsible caller, never two responsible, and the empty-queue return is unreachable |
| `TcpSendQueue.WrittenInPushOrder` | ClientNetworkCore/Session.cpp:104-132 | without a write error: written, then in flight, then queued buffers are the pushed ones in push order, empty ones dropped |
| `TcpSendQueue.NothingLostOrDuplicated` | ClientNetworkCore/Session.cpp:136-153 | with write errors too, the multiset of non-empty buffers pushed is written plus in flight plus queued |
| `TcpSendQueue.WrittenIsFirstPushed` | ClientNetworkCore/Session.cpp:134-153 | in every connected run, write errors included, what has been written is exactly the first non-empty buffers pushed, in that order |
| `TcpSendQueue.FailPutsBehind` | ClientNetworkCore/Session.cpp:141-152 | a failed write's buffers go behind those queued since, in their own order |
| `TcpSendQueue.StuckIffWriteFailed` | ClientNetworkCore/Session.cpp:141-152 | the flag is set with nobody responsible iff a write has failed |
| `TcpSendQueue.StuckForever` | ClientNetworkCore/Session.cpp:141-152 | after a failed write no continuation writes anything while connected; the queue only grows |
| `TcpSendQueue.EmptyBatchDisconnects` | ClientNetworkCore/Session.cpp:200-206 | a successful write disconnects iff its batch was empty |
| `TcpSession.TcpSession.Disconnect` | ClientNetworkCore/Session.cpp:52-58 | the first call clears flag, queue and batch (`ProcessDisconnect`, lines 184-198), any other changes nothing |
| `TcpSession.CompletionIsProcessSend` | ClientNetworkCore/Session.cpp:200-215 | in every connected run a completion is that of the one outstanding write, the batch in hand, and afterwards the write `ProcessSend` starts is the only one; the state is that of the function `ProcessSend` is specified by |
| `TcpSession.TcpSession.PushAndClaim` | ClientNetworkCore/Session.cpp:35-41 | appends the buffer; the caller wins iff the flag was clear |
| `TcpSession.TcpSession.RegisterSend` | ClientNetworkCore/Session.cpp:104-132 | drains the whole queue into one write of its non-empty buffers; nothing if not connected; only the batch is cleared if the queue is empty |
| `TcpSession.TcpSession.Send` | ClientNetworkCore/Session.cpp:28-45 | alone: starts a write of everything queued iff connected and the flag was clear |
| `TcpSession.TcpSession.ProcessSend` | ClientNetworkCore/Session.cpp:200-215 | disconnects on 0 bytes, clears the flag on an empty queue, else starts the next write if connected: the model's completion step |
| `TcpSession.TcpSession.RequeueCurrent` | ClientNetworkCore/Session.cpp:141-152 | the batch goes to the back of the queue in order, the flag stays |
| `TcpDelivery.PrefixParses` | ClientNetworkCore/Session.cpp:244-266 | a stream broken off anywhere is parsed into a prefix of its packets |
| `TcpDelivery.ArriveInPushOrder` | ClientNetworkCore/Session.cpp:28-154 | in every interleaving of concurrent `Send` callers without a write error, however much has come through and however it was cut, the other side has dispatched exactly the first messages in push order, and all of them once everything is through |
| `TcpDelivery.HandedMessagesArrive` | ClientNetworkCore/Session.cpp:28-154 | the same from caller to receiver: the messages handed to `Send`, in the order in which the callers got the lock |
| `TcpDelivery.ArriveDespiteErrors` | ClientNetworkCore/Session.cpp:28-154 | with write errors too, of the writes that completed the other side has dispatched exactly the first messages in push order |
| `TcpDelivery.HandedArriveDespiteErrors` | ClientNetworkCore/Session.cpp:28-154 | the same from caller to receiver, with write errors |
| `Framing.ParseIsParse` | ClientNetworkCore/Session.cpp:244-266 | the loop splits the bytes into well-formed packets and a remainder that starts with no complete well-formed packet |
| `Framing.ParseIsUnique` | ClientNetworkCore/Session.cpp:244-266 | there is no other such split |
| `Framing.ParseResumes` | ClientNetworkCore/Session.cpp:231-240 | parsing a prefix, keeping its unread bytes and continuing is parsing the whole |
| `Framing.ChunkingIsIrrelevant` | ClientNetworkCore/Session.cpp:217-266 | however a stream is cut into receives, the packets dispatched and the bytes left unread are those of one parse of the stream, malformed sizes included |
| `Framing.StopsForeverIffMalformed` | ClientNetworkCore/Session.cpp:252-258 | what is left unread stops the parser whatever follows iff its two size bytes are there and too small |
| `Framing.FramesRoundTrip` | ClientNetworkCore/UdpReceiver.cpp:78-101 | concatenated well-formed packets are parsed back into themselves with nothing left |
| `Framing.FrameFormat` | DummyClient/ServerPacketHandler.h:170-180 | size and id low byte first, then the rest of the header and the payload; headers of four (TCP) and six (UDP) bytes |
| `Framing.MessagesArrive` | DummyClient/ServerPacketHandler.h:167-183 | whatever messages are framed and however the bytes are cut, exactly these ids and payloads are dispatched, in order, with nothing left |
| `RecvBuffer.RecvBuffer.OnRead` | ClientNetworkCore/RecvBuffer.h:18 | (body: RecvBuffer.cpp, lines 40-47) succeeds iff that many bytes are unread, and consumes exactly them |
| `RecvBuffer.RecvBuffer.OnWrite` | ClientNetworkCore/RecvBuffer.h:19 | (body: RecvBuffer.cpp, lines 49-56) succeeds iff they fit, and appends exactly the bytes stored behind the write position |
| `RecvBuffer.RecvBuffer.Clean` | ClientNetworkCore/RecvBuffer.h:17 | (body: RecvBuffer.cpp, lines 19-38) keeps the unread bytes, copied upwards byte by byte; room for one more buffer size afterwards iff nothing was unread or there was room before |
| `RecvBuffer.CopyOverlapsIff` | ClientNetworkCore/RecvBuffer.h:17 | (body: RecvBuffer.cpp, line 33) source and destination of the copy overlap iff less has been read than is unread |
| `RecvBuffer.OverlapIsReached` | ClientNetworkCore/Session.cpp:225-240 | one receive of a packet and more than its length of the next leads to an overlapping copy |
| `RecvBuffer.RecvBuffer.IsParsingPacket` | ClientNetworkCore/Session.cpp:244-266 | terminates with a length within the data, having dispatched the parse's packets and leaving its remainder |
| `RecvBuffer.ParseAndClean` | ClientNetworkCore/UdpReceiver.cpp:64-72 | the overflow exits after parsing are never taken; unread bytes survive |
| `RecvBuffer.TcpReceiver.ProcessRecv` | ClientNetworkCore/Session.cpp:217-242 | disconnects iff 0 bytes or more than fit; otherwise one step of the stream parser |
| `RecvBuffer.UdpReceiver.ProcessRecv` | ClientNetworkCore/UdpReceiver.cpp:55-76 | fails iff the datagram does not fit; otherwise one step of the stream parser |
| `RecvBuffer.ReceiveStream` | ClientNetworkCore/Session.cpp:217-266 | over the real buffer, any list of non-empty receives that each fit yields the parse of the whole stream |
| `SendBuffers.InvHolds` | ClientNetworkCore/SendBuffer.cpp:17-115 | the allocator invariant, for every run over any number of threads |
| `SendBuffers.LiveBuffersNeverOverlap` | ClientNetworkCore/SendBuffer.cpp:17-115 | live buffers own disjoint bytes within 6000; a chunk belongs to at most one thread or to the pool, and a pooled chunk holds no live buffer |
| `SendBuffers.ClosingTwiceOverlapsIff` | ClientNetworkCore/SendBuffer.cpp:17-26 | when a buffer is closed again while its neighbour is open, the next buffer falls into the neighbour iff the mark moves by less than the neighbour's length and either the second close or the new buffer is not empty |
| `SendBuffers.OpenAlwaysDelivers` | ClientNetworkCore/SendBuffer.cpp:73-90 | `Open` crashes iff the request exceeds a chunk or the thread has a buffer open; otherwise it never returns null and the buffer has the size asked for |
| `SendBuffers.OpenPlacesExactly` | ClientNetworkCore/SendBuffer.cpp:73-104 | the new buffer is behind the last one in the thread's chunk iff it fits there, and then no chunk changes hands; otherwise at the front of the chunk freed last, or of a new one |
| `SendBuffers.LastFreedIsNextTaken` | ClientNetworkCore/SendBuffer.cpp:92-115 | the pool is a stack |
| `SendBuffers.CloseMovesMark` | ClientNetworkCore/SendBuffer.cpp:60-66 | closing moves the mark to the end of what was written |
| `SendBuffers.CloseKeepsInv` | ClientNetworkCore/SendBuffer.cpp:17-26 | on a buffer not yet closed `Close` crashes iff more is closed than was asked for |
| `SendBuffers.BytesStay` | ClientNetworkCore/SendBuffer.cpp:41-66 | over any run in which nobody writes or closes a live buffer its bytes do not change, recycling included |
| `SendBuffers.NoChunkIsLost` | ClientNetworkCore/SendBuffer.cpp:92-115 | every chunk ever allocated is held by a live buffer, a thread or the pool |
| `SendBufferChunk.SendBufferChunk.Reset` | ClientNetworkCore/SendBuffer.cpp:41-45 | closed and empty; the bytes stay |
| `SendBufferChunk.SendBufferChunk.Open` | ClientNetworkCore/SendBuffer.cpp:47-58 | asserts iff oversized or already open; otherwise yields the fill mark iff the request fits, and opens the chunk only then |
| `SendBufferChunk.SendBufferChunk.Close` | ClientNetworkCore/SendBuffer.cpp:60-66 | asserts iff not open; otherwise closes and advances the mark by any amount, and the chunk stays sound iff that much was free |
| `PacketPrinter.PrintsExactly` | DummyClient/ServerPacketHandler.h:167-183 | for every payload: printed iff the packet fits a chunk and the thread has no buffer open; the new buffer is closed and holds the frame, in which only the header bytes after the id are whatever the chunk held; no other live buffer changes; refused from 65536 bytes, overrun iff the packet size wraps |
| `PacketPrinter.UnwrittenAreOldBytes` | ClientNetworkCore/SendBuffer.cpp:41-58 | those header bytes are the chunk's old bytes at that place |
| `PacketPrinter.AnyNumberCanBeStale` | DummyClient/ServerPacketHandler.h:173-176 | for every 16-bit number there is an allocator run after which an unnumbered UDP packet carries it |
| `SendBufferChunk.SendBufferManager.MakeSendBufferImpl` | DummyClient/ServerPacketHandler.h:167-183 | the stores and calls of the printer lead to the specified state and outcome |
| `SendBufferChunk.SendBufferManager.Pop` | ClientNetworkCore/SendBuffer.cpp:92-104 | the back of the pool if any, else a new chunk, reset |
| `SendBufferChunk.SendBufferManager.DropReference` | ClientNetworkCore/SendBuffer.cpp:106-115 | a chunk returns to the back of the pool iff nothing refers to it any more |
| `SendBufferChunk.SendBufferManager.Open` | ClientNetworkCore/SendBuffer.cpp:73-90 | the specified state, with the exact crash condition |
| `SendBufferChunk.SendBufferManager.Close` | ClientNetworkCore/SendBuffer.cpp:17-26 | the specified state, with the exact crash condition |
| `TransformCompressor.CoordinateFormat` | DummyClient/TransformCompressor.cpp:81-92 | a coordinate's code counts steps of 4096/65535 from -2048 and stands for the middle of its step |
| `TransformCompressor.PositionFormat` | DummyClient/TransformCompressor.cpp:5-28 | x from bit 48, height in 128ths from bit 32, z from bit 16 |
| `TransformCompressor.RotationFormat` | DummyClient/TransformCompressor.cpp:30-49 | yaw in the high half in 65535ths of a turn, pitch in the low half in 65535ths of half a turn |
| `TransformCompressor.VelocityFormat` | DummyClient/TransformCompressor.cpp:68-79 | velocity from bits 48, 32 and 16 and speed in the low field, in signed hundredths |
| `TransformCompressor.MotionFitsIff` | DummyClient/TransformCompressor.cpp:54-57 | packing is defined iff every component and the speed lie strictly between -327.69 and 327.68 |
| `TransformCompressor.CompressPositionIs` | DummyClient/TransformCompressor.cpp:81-86 | which reals get which code: half-open cells, the outer two unbounded |
| `TransformCompressor.CompressInvertsExpand` | DummyClient/TransformCompressor.cpp:81-92 | compressing an expanded code gives the code back |
| `TransformCompressor.QuantizingTwiceIsQuantizing` | DummyClient/TransformCompressor.cpp:81-92 | a second round of quantization changes nothing, for every real |
| `TransformCompressor.QuantizationBoundIff` | DummyClient/TransformCompressor.cpp:81-92 | the error is at most HALF_RES iff the value is in the world range or within one cell above it |
| `TransformCompressor.NoCodeIsNearer` | DummyClient/TransformCompressor.cpp:81-92 | for every real no other code expands to anything nearer |
| `TransformCompressor.CompressIsMonotone` | DummyClient/TransformCompressor.cpp:81-86 | order is kept |
| `TransformCompressor.PositionWordRoundTrip` | DummyClient/TransformCompressor.cpp:5-28 | an unpacked position can be packed again iff its height field is below 32768, and gives the same word iff also the low 16 bits are zero |
| `TransformCompressor.HeightRoundTripIff` | DummyClient/TransformCompressor.cpp:8-26 | a packable height returns within 1/128 iff it is below 256; otherwise it comes back 512 lower |
| `TransformCompressor.PositionRoundTrip` | DummyClient/TransformCompressor.cpp:5-28 | each coordinate of a packed position comes back as its own quantization, in its own place |
| `TransformCompressor.RotationFitsIff` | DummyClient/TransformCompressor.cpp:32-33 | the exact angles for which packing is defined |
| `TransformCompressor.RotationWordRoundTrip` | DummyClient/TransformCompressor.cpp:30-49 | every 32-bit rotation word survives unpacking and packing |
| `TransformCompressor.RotationError` | DummyClient/TransformCompressor.cpp:30-49 | angles come back less than a step lower and never higher |
| `TransformCompressor.VelocityWordRoundTrip` | DummyClient/TransformCompressor.cpp:52-79 | every 64-bit velocity word survives unpacking and packing |
| `TransformCompressor.VelocityError` | DummyClient/TransformCompressor.cpp:52-79 | components and speed that fit come back within 1/100 and never larger |
| `Prediction.InputStep` | DummyClient/Player.cpp:62-97 | an input sets the planar rendered velocity to heading times speed, keeps its height, moves the position by a thirtieth of it, and changes nothing else |
| `Prediction.DiagonalIsBetween` | DummyClient/Player.cpp:73-90 | with a key of each axis down, the heading times the root of two is the sum of the two single headings |
| `Prediction.ViewIsUnit` | DummyClient/Player.cpp:147-159 | the view direction has length one and rises by the sine of the pitch |
| `Prediction.KeysFollowView` | DummyClient/Player.cpp:71-97 | forward moves along the plan of `GetPlayerDirection`, the other keys opposite and across; backward and right win over their opposites |
| `Prediction.PlanarSpeed` | DummyClient/Player.cpp:71-97 | for every key combination and yaw an input moves at exactly the reported speed, or not at all if none of the four keys is down |
| `Prediction.ReportIsTakenOver` | DummyClient/Player.cpp:103-105 | position, velocity, speed, yaw and pitch become those of the report's words |
| `Prediction.FarReportReplaces` | DummyClient/Player.cpp:107-142 | a report whose distance from what is rendered exceeds 0.7 replaces it, plus the movement replayed, coordinate by coordinate |
| `Prediction.CloseReportIsAveraged` | DummyClient/Player.cpp:112-142 | any other is averaged with what is rendered, in height with the compression error added, plus the movement replayed |
| `Prediction.AnglesHalveOrSnap` | DummyClient/Player.cpp:125-136 | a report more than a radian off in yaw or pitch sets both angles, any other halves both differences |
| `Prediction.SmallTurn` | DummyClient/Utils.h:12-16 | within a radian the circular interpolation is the linear one |
| `Prediction.ReplayMoves` | DummyClient/Player.cpp:138-142 | replaying adds the movement of exactly the inputs above the acknowledgement, in order, at the reported yaw and speed, and touches nothing but rendered position and velocity |
| `Prediction.TravelAddsUp` | DummyClient/Player.cpp:68 | each input adds a thirtieth of its velocity, coordinate by coordinate |
| `Prediction.ReconcileMoves` | DummyClient/Player.cpp:99-145 | the new position is the corrected one plus that movement; the pending list keeps exactly the unacknowledged |
| `PredictionRuns.PushThenApply` | DummyClient/Player.cpp:18-31 | an uninterrupted `Update` is the push and then the apply |
| `PredictionRuns.ForgottenIsAcked` | DummyClient/Player.cpp:144 | an input has been forgotten iff a report acknowledged it or a later one after it was issued |
| `PredictionRuns.PendingIsUnacked` | DummyClient/Player.cpp:18-31 | from every spawn, with reports handled at any point, and without 32-bit wrap: the pending inputs are the contiguous range of those issued and never acknowledged, in order |
| `PredictionRuns.AckPendingIff` | DummyClient/Player.cpp:140-144 | acknowledging a pending input leaves exactly the later ones iff the pending list does not straddle the 32-bit wrap |
| `PredictionRuns.AckOlderIff` | DummyClient/Player.cpp:140-144 | acknowledging something older leaves the whole list iff it does not straddle the wrap and begins above that number |
| `PredictionRuns.ReportForgetsExactlyIff` | DummyClient/Player.cpp:138-144 | the same for a report at any point of any run, however many inputs it has issued |
| `PredictionRuns.PendingIsContiguous` | DummyClient/Player.cpp:18-31 | in runs of any length whose reports never find the pending list straddling the wrap, the pending inputs are a contiguous range of those issued, up to the last |
| `PredictionRuns.WrapDiscardsUnacked` | DummyClient/Player.cpp:140-144 | for every spawn a run of 2^32 + 1 inputs in which the last was never acknowledged and is not pending |
| `PredictionErrors.IdealIsFoldOfAll` | DummyClient/Player.cpp:138-142 | the reported position plus the unacknowledged inputs is the fold of all inputs iff the reported position is the fold of the acknowledged ones |
| `PredictionErrors.ReconcileReplays` | DummyClient/Player.cpp:99-145 | over every run, what a report leads to, up to the inputs an earlier acknowledgement discarded |
| `PredictionErrors.SnapsIffFar` | DummyClient/Player.cpp:107-108 | in every run a report snaps iff it is more than 0.7 away from what is rendered |
| `PredictionErrors.SnapIsExactIff` | DummyClient/Player.cpp:107-142 | a snap leads to the fold of all inputs iff the skipped inputs amount to no movement; none are skipped unless the acknowledgement is stale; otherwise the error is their movement |
| `PredictionErrors.PredictionErrorBound` | DummyClient/Player.cpp:99-142 | from the server's true position through packing, unpacking, snapping and replay: within HALF_RES in the plane and 1/128 in height of the fold of all inputs |
| `PredictionErrors.ErrorUnchangedIff` | DummyClient/Player.cpp:18-69 | until the next report, once every input pushed is applied, the error is what the report left plus the step of the input in hand when it came; unchanged iff none was in hand or its step is no movement |
| `PredictionErrors.ReportInBetweenAppliesTwice` | DummyClient/Player.cpp:26-29 | push, snapping report, apply: the input is still pending, its step is added to a position that contains it, and that is a real error if a key is down and the speed is not zero |
| `PredictionErrors.DrawnFromOriginUntilReport` | DummyClient/Player.cpp:18-69 | before the first report the rendered position is the fold of all inputs from the origin at the spawn's yaw and speed |
| `PredictionErrors.CompressionErrorOfReport` | DummyClient/Player.cpp:114-119 | the compression error computed for a reported position is zero in x and z and at most HALF_RES in y |
| `PredictionErrors.SmoothingError` | DummyClient/Player.cpp:112-142 | smoothing makes the error the mean of the old error and the whole unacknowledged movement, less the movement of skipped inputs; the height error halves up to HALF_RES/2 |
| `PredictionErrors.SmoothingIsExactIff` | DummyClient/Player.cpp:112-142 | a right prediction stays right iff the unacknowledged movement is twice the skipped one; for an acknowledgement in order, iff nothing unacknowledged moved the player, and else it overshoots by half of that |
| `PredictionErrors.RepeatedSmoothing` | DummyClient/Player.cpp:112-142 | over n arrivals of the same close report the distance to an overshoot by the whole unacknowledged movement shrinks by 2^n |
| `SmoothingRounds.CalmRound` | DummyClient/Player.cpp:18-142 | a close report, and whatever inputs follow it, take the error half way to the movement the report has not seen |
| `SmoothingRounds.ErrorFollowsUnseen` | DummyClient/Player.cpp:18-142 | over any number of different close reports that agree on where all inputs lead, with any inputs in between, the error goes half way to the movement unseen at each in turn |
| `SmoothingRounds.ErrorReachesLeastUnseen` | DummyClient/Player.cpp:112-142 | if every report misses at least a given movement, what the error lacks of it halves with each report |
| `Player.Player.SetTransform` | DummyClient/Actor.cpp:15-20 | takes over the spawn packet's position, velocity, speed and angles and nothing else |
| `Player.Player.PushInput` | DummyClient/Player.cpp:24-26 | numbers the input and appends it, and changes nothing else |
| `Player.Player.Update` | DummyClient/Player.cpp:18-31 | the new state is that of the specification; a zero time stamp changes nothing |
| `Player.Player.ProcessKeyField` | DummyClient/Player.cpp:71-97 | the key tests give the specified velocity and leave its height as it was |
| `Player.Player.ReplayUnacknowledged` | DummyClient/Player.cpp:138-142 | the loop is the specified replay |
| `Player.Player.ForgetAcknowledged` | DummyClient/Player.cpp:144 | keeps exactly the unacknowledged inputs, in order |
| `Player.Player.Reconcile` | DummyClient/Player.cpp:99-145 | the whole new state is that of the specification |
| `MovementInterpolator.UpperBoundIsUpper` | DummyClient/MovementInterpolator.cpp:29-33 | the insertion point is the only place that keeps the order with ties first |
| `MovementInterpolator.AddKeepsSorted` | DummyClient/MovementInterpolator.cpp:25-42 | the window stays sorted, contains the new snapshot and nothing older than half a second before it |
| `MovementInterpolator.WindowIsSorted` | DummyClient/MovementInterpolator.cpp:25-42 | sorted whatever the arrival order |
| `MovementInterpolator.SuffixKeptIffNotOlderThanDropped` | DummyClient/MovementInterpolator.cpp:25-42 | the window stays a suffix of the sorted full history iff the new snapshot is no older than the newest one dropped |
| `MovementInterpolator.WindowIsRecentHistory` | DummyClient/MovementInterpolator.cpp:25-42 | for snapshots in time order the window is exactly the last half second of the history, and never empty |
| `MovementInterpolator.WindowIsLastHalfSecond` | DummyClient/MovementInterpolator.cpp:37-41 | in numbers: for snapshots in time order, one is kept iff it is no more than 0.5 older than the newest |
| `MovementInterpolator.BracketExact` | DummyClient/MovementInterpolator.cpp:45-66 | there is a pair iff the time is after the first and not after the last snapshot; the pair is adjacent and straddles it, so the weight lies in (0, 1] |
| `MovementInterpolator.PrunedAgreesIff` | DummyClient/MovementInterpolator.cpp:45-66 | pruning does not change the answer iff nothing was dropped, or the time is after the oldest snapshot kept, or before the whole history |
| `MovementInterpolator.WindowAnswersLikeHistory` | DummyClient/MovementInterpolator.cpp:25-70 | in every run with snapshots in time order, each time after the window's first snapshot is answered as by the unpruned history |
| `MovementInterpolator.MovementInterpolator.FindUpper` | DummyClient/MovementInterpolator.cpp:29-33 | the binary search finds the insertion point |
| `MovementInterpolator.MovementInterpolator.FindLower` | DummyClient/MovementInterpolator.cpp:56 | the binary search finds the first snapshot not before the time |
| `MovementInterpolator.MovementInterpolator.AddSnapshot` | DummyClient/MovementInterpolator.cpp:25-42 | sorted insertion and pruning by index, as specified |
| `MovementInterpolator.LerpInProportion` | DummyClient/MovementInterpolator.cpp:66-68 | every interpolated coordinate divides the way between the two snapshots as the time divides the time between them |
| `MovementInterpolator.MovementInterpolator.Interpolate` | DummyClient/MovementInterpolator.cpp:45-70 | renders position and rotation from the bracketing pair, each coordinate in the proportion of the times, or reports that there is none and changes nothing |
| `Vectors.LerpStaysBetween` | DummyClient/Utils.h:6-10 | interpolated coordinates stay between their ends |
| `Vectors.LerpDivides` | DummyClient/Utils.h:6-10 | interpolating by a quotient divides the way in that proportion, from the first end at nothing to the second at the whole |

## Left out

- Sockets, connecting, disconnecting and logging: a disconnect is one step, a write either completes whole or
  fails; closing the socket separately from the flag is not modelled.
- Locks are taken to be exclusive and re-entrant.  A write's completion is one step because its handler holds the
  lock throughout; memory ordering is not modelled.
- `_sendSeq++` is taken to be atomic, and so is `push_back` on the pending inputs; in the source neither is under the
  lock, and two threads in them at once are a data race.
- SoundExactlyIf: a closed form only for stale numbers outside 31744..64512; with others `SoundIffNoFalseClaim` is
  exact but leaves a finite search over lists of up to 1024 acceptances (`FalseClaimsAreShort`), and `ClimbingStaleNumbers` shows that the closed form fails.
- ErrorUnchangedIff: for reports that acknowledge an input the player has issued.
- SendBufferManager.Close: for buffers not yet closed; `ClosingTwiceOverlapsIff` is about the others.
- Packet handlers run even for rejected duplicates; handlers, their table and the protobuf wire format are not part
  of this model, and payloads are opaque bytes.
- Which session a datagram is attributed to: all peers share one receive buffer, and the model has one stream.
- Retry counts are unbounded; the source's 32-bit counter would need 2^32 updates to wrap.
- Times in the sessions are real numbers; the source mixes `float` and `double`.
- Floating-point rounding everywhere: positions, angles and weights are real numbers.  Square roots and
  trigonometry are parameters with the identities they satisfy (`Prediction.Faithful`).
- Conversions of out-of-range reals to integers are undefined in the source and excluded by `HeightFits`,
  `RotationFits` and `MotionFits`.
- Packed words are naturals and their fields base-65536 digits, instead of shifts and masks.
- `delta.Length() > SMOOTH_THRESHOLD` is compared squared.
- The bytes written by an overrun of the packet printer: after that outcome nothing is promised.
- The manager's chunks are a table indexed by identity, and references are counted by looking for holders; byte
  contents are in a real array only in the chunk class.
- `CaptureInput` and sending inputs: the captured input is a parameter of `Update`.
- `Extrapolate`, `Process` and the interpolation delay; `GetPlayerDirection` appears only as a function; `Fire`.
- Rendering, user interface, actors, scenes, rooms, time synchronisation, job queues, memory pools, `TypeCast`,
  `BufferReader`, `LockQueue` and `IdManager`, which would add only easy members.
