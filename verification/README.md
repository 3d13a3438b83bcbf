# Verified model of the OpenVPN session core

This project models the session machinery of go-openlawsvpn, a user-space OpenVPN client, and
proves what that machinery keeps over every input, every run and every interleaving. It is written
in Dafny; `dafny verify dfyconfig.toml` checks all of it.

What is modelled, file by file:

- `Bytes.dfy`: bytes, 16- and 32-bit words, big-endian encoding, concatenation.
- `Framing.dfy`, `SharedWriter.dfy`: opcode bytes, the two-byte TCP length prefix, and goroutines that
  share one connection whose writes may fail partway.
- `ControlPacket.dfy`: P_CONTROL_V1, SOFT_RESET and P_ACK_V1 builders and the three parsers.
- `RetransmitDelay.dfy`, `Reliable.dfy`, `ReceiveWindow.dfy`: back-off, send queue, receive window.
- `ControlTransport.dfy`, `ControlSession.dfy`, `ControlChannel.dfy`: the byte stream under TLS, the
  segmenter, and the reliable channel as a two-party system over a network that loses, repeats and
  reorders packets.
- `Rekey.dfy`, `RekeyBarriers.dfy`, `RekeyResets.dfy`, `RekeyRuns.dfy`: a renegotiation against the
  dispatcher, its barriers, the reset exchange, and runs that miss the barrier's purpose.
- `KeyEpochs.dfy`, `KeyManager.dfy`: key-id allocation and live keys.
- `Crypto.dfy`, `Replay.dfy`, `DataChannel.dfy`, `DataPath.dfy`: sealing and opening, the replay
  window, and packets of several key epochs in flight while keys are prepared and promoted.
- `MssFix.dfy`, `SizeBudget.dfy`: the in-place MSS clamp with its checksums, and the size arithmetic.
- `Teardown.dfy`, `TeardownInvariant.dfy`, `TeardownRuns.dfy`: disconnect under racing requests,
  session monitors and connection setups, what every interleaving keeps, and runs that go wrong.
- `RouteLedger.dfy`: route ownership next to an administrator who edits the same table.
- `WebSocket.dfy`, `ControlMessages.dfy`: the relay's framing and the NUL-terminated messages.

How it is modelled. Code that changes fields or buffers is a class or a method with loops, and each
such method is tied by its `ensures` to a specification function; the properties are lemmas about
those functions. Goroutines are step systems: one action is what a goroutine does between two lock
or channel operations, a run is any list of actions, and an action that is blocked when its turn
comes does nothing. Clocks, random bytes, TLS and the peer are inputs. AES-GCM, AES-CBC and HMAC are
function values restricted to those with the laws that opening undoes sealing and that lengths are
as specified. Integer widths are written out where they matter.

## Where the code departs from its intention

Each of these is stated about the code as it is, with an exact condition and, where it takes a run to
get there, that run. The last one concerns a comment only.

- Back-off: the int64 product overflows from the 33rd retransmission on. `BackoffExactly` says for
  which retry counts the delay is the intended one; those are also the counts with a positive delay.
- Replay window: the check indexes slots by distance from the top, the shift loop clears them by
  sequence number and moves nothing. After ids 0 and 1 the window takes 0 again
  (`SecondCopyAccepted`), and after 5, 3 and 6 it refuses 4, which it has never seen
  (`FreshIdRefused`). It agrees with the set of accepted ids at every moment of a run if and only if
  every id it accepted was harmless when it came, which `ShiftHarmless` spells out
  (`AlwaysMeetsExactly`, and `InOrderExactly` for in-order traffic). `RingReplay` is a variant, not
  the code: it indexes by id everywhere and does meet the specification.
- ACK before the window: the dispatcher acknowledges a control packet before it looks up the session
  and before the window may drop it. In every session and run, all acknowledgements are at every
  moment for held packets if and only if no packet arrived eight or more ids past what the window
  expected (`AlwaysHeldExactly`). A sender that keeps within eight ids of its lowest unacknowledged
  one never causes that (`AcknowledgedIsHeld`); this client's own queue can
  (`UnboundedSenderLosesAcknowledged`). The byte stream stays a prefix either way.
- Renegotiation, our reset: the signal that lets TLS start means that some P_ACK_V1 or SOFT_RESET
  packet listing packet 0 arrived since registration (`ResetAckedExactly`), not that our reset was
  acknowledged. An acknowledgement that comes before the reset is queued starts TLS with packet 0
  still queued (`EarlyAckStartsTls`); one inside P_CONTROL_V1 empties the queue and signals nothing
  (`PiggybackedAckNotSignalled`). Packet 0 has left the queue if and only if an acknowledgement of it
  was handled after it was queued (`OwnResetQueuedExactly`), which TLS does wait for if nobody lists
  packet 0 before it exists (`OwnResetAckedBeforeTls`).
- Renegotiation, the peer's reset: one whose packet id is not 0 passes the barrier without moving the
  receive window (`OddResetLeavesWindow`); `ResetMovesWindow` is the exact condition.
- Renegotiation, the final check: it waits until the send queue is empty, and does not look at TLS
  output that the send goroutine has not taken yet. A run reaches Prepare with such output neither
  queued nor acknowledged (`UnsentOutputPrepared`). When the check passes, everything TLS wrote has
  been acknowledged if and only if nothing is waiting to be sent (`FinalCheckExactly`).
- Key ids: six failed attempts in a row (6 modulo 7) give two live epochs the same key id
  (`LiveEpochs`, `SixFailuresCollide`).
- Builder: 256 or more ACK ids or a key id of 8 or more cannot be read back (`ParseInvertsControlV1`).
- Teardown: with a connection setup in flight `doneCh` can be closed twice, which panics. A setup that
  fails during a teardown closes it too (`FailedSetupClosesTwice`); one that completes after a
  teardown marks the tunnel as up again, and the session is then ended a second time
  (`CompletedSetupClosesTwice`). In every run that has come to rest it was closed twice if and only
  if a setup failed while a teardown was under way or a disconnect won after the session had been
  ended, and the latter takes a setup that completed in between (`DoneClosedExactly`).
- Credentials: a setup checks the state and stores the token in two locked sections, so a
  non-preserving Disconnect in between leaves the token behind (`TokenSurvivesDisconnect`). After such
  a request what is left at quiescence is exactly what setups stored after the session had been
  ended and outside any teardown (`CredentialsExactly`).
- Control transport: the closed check is made under the lock and the channel send after it, and Close
  sets the flag before it closes the channels. A call that passed the check panics if and only if its
  channel has been closed by the time of the send and no write deadline comes first (`InjectInbound`,
  `Write`).
- TCP framing: a write that fails partway leaves part of a frame on the stream, and the next
  goroutine writes on after it. Whenever the mutex is free, every packet that may be written next
  is read whole after the completed ones if and only if no write has failed with part of its frame
  out (`WholeExactly`).
- MSS clamp: the TCP length in the checksum is the buffer's, a receiver takes the IP header's. If the
  header announces less than the buffer, the receiver accepts the result if and only if the rest
  cancels out (`ReceiverExactly`); padding with zeros never does (`PaddedSynRefused`).
- WebSocket: a read deadline after the first header byte drops that byte and reads on
  (`DeadlineExactly`, `DeadlineCorrupts`).
- The comment on `RecvWindow.Receive` says duplicates are acknowledged too; the code returns no id
  for one already delivered. Callers ignore the list.

## Model

| member | source | states |
|---|---|---|
| Framing.FirstByte | internal/framing/opcodes.go:49-61 | opcode and key id read back from the packed byte, modulo their 5 and 3 bits |
| Framing.Conn.WriteTCP | internal/framing/framing.go:37-53 | refuses anything but 1 to 65535 bytes and leaves the stream alone; otherwise puts out a prefix of exactly one length-prefixed frame, all of it if it reports success |
| Framing.Conn.ReadTCP | internal/framing/framing.go:19-32 | takes exactly one frame off the stream; a short stream is used up, a zero length is refused after its two bytes |
| Framing.ReadInvertsWrite | internal/framing/framing.go:19-53 | reading undoes writing whatever follows |
| Framing.ReadFramesInvertsWriteFrames | internal/framing/framing.go:19-53 | repeated reads return any list of frames written, in order, and then what follows |
| Framing.Splits | internal/framing/framing.go:19-53 | every byte string is the frames that repeated reads return and a rest that holds no frame |
| Framing.ReadsOn | internal/framing/framing.go:19-32 | bytes that arrive later are read on from that rest |
| Framing.Misread | internal/framing/framing.go:19-53 | behind a rest that is not empty no one-byte packet is read as itself |
| SharedWriter.StepKeepsInv | client.go:1683-1690 | every scheduling step, failing writes included, keeps every writer's packets accounted for in order, and the stream a sequence of whole frames plus the lock holder's partial one as long as no write failed partway; the byte count holds always |
| SharedWriter.FramesStayWhole | client.go:1683-1690 | under every schedule of any number of writers each writer's packets are dealt with in its order, all of them once everyone is done; while no write has failed partway the reader gets each completed frame whole and once; and without failing writes every frame is completed |
| SharedWriter.WholeExactly | client.go:1683-1690 | under every schedule, whenever the mutex is free: every packet written next is read after exactly the completed ones if and only if no write failed with part of its frame on the stream |
| ControlPacket.AppendIds | client.go:3203-3228 | the loop appends every id big-endian, in order |
| ControlPacket.BuildControlV1WithKeyId | client.go:3203-3228 | the packet layout that the inversion lemmas are about |
| ControlPacket.BuildAck | client.go:3241-3252 | the standalone ACK layout |
| ControlPacket.Parse | internal/framing/framing.go:101-143 | a parsed packet never has more than 255 acks or a key id above 7 |
| ControlPacket.ReadIds | internal/framing/framing.go:101-143 | the loop reads the ids at their offsets |
| ControlPacket.ParseControl | internal/framing/framing.go:101-143 | the offset walk computes Parse on every byte string, errors included |
| ControlPacket.ParseControlV1Payload | client.go:3254-3270 | its own offset walk computes payload and id on every byte string, nothing and 0 when truncated |
| ControlPacket.ParseControlV1AckIds | client.go:3275-3291 | the loop computes the ack list, empty when truncated |
| ControlPacket.ReadStandaloneAck | client.go:1924-1947 | the dispatcher's loop stops at the announced count or at the end of the packet |
| ControlPacket.ParsersAgree | client.go:3254-3291 | on every byte string that is not P_ACK_V1, the quick parsers return ParseControl's payload, id and acks, and (nil, 0) when it fails |
| ControlPacket.IdsAtReadsIdBytes | client.go:3203-3291 | reading ids undoes appending them at any offset |
| ControlPacket.ParseInvertsControlV1 | client.go:3203-3228 | ParseControl recovers what was built if and only if there are at most 255 acks and the key id is below 8 |
| ControlPacket.BodyInvertsControlV1 | client.go:3254-3291 | the quick parsers recover payload, id and up to 255 acks whatever the key id |
| ControlPacket.BodyInvertsSoftReset | client.go:3231-3239 | a SOFT_RESET is 14 bytes and parses as packet 0 without payload or acks |
| ControlPacket.StandaloneInvertsAck | client.go:3241-3252 | up to 255 acknowledged ids are read back; the trailing session id is not taken for ids |
| RetransmitDelay.BackoffSmall | internal/reliable/reliable.go:77-95 | up to 32 retries the 64-bit delay is min(2·2^k, 30) seconds |
| RetransmitDelay.BackoffLarge | internal/reliable/reliable.go:77-95 | for 33 to 53 retries the delay is 30 seconds or negative, as the sign bit of the product decides |
| RetransmitDelay.BackoffVanishes | internal/reliable/reliable.go:77-95 | from 54 retries on the delay is zero |
| RetransmitDelay.BackoffExactly | internal/reliable/reliable.go:77-95 | for every retry count, the delay is the intended one if and only if it is positive if and only if the sign bit is clear |
| Reliable.SendQueue.constructor | internal/reliable/reliable.go:131-134 | an empty queue that starts at the given id |
| Reliable.SendQueue.Enqueue | internal/reliable/reliable.go:39-53 | hands out consecutive ids modulo 2^32 and appends the entry with its first deadline |
| Reliable.SendQueue.Ack | internal/reliable/reliable.go:57-66 | the search loop removes the first entry with the id and nothing else |
| Reliable.SendQueue.AckMany | internal/reliable/reliable.go:69-73 | acknowledges the ids one after the other |
| Reliable.SendQueue.DueForRetransmit | internal/reliable/reliable.go:77-95 | the sweep rearms and returns as SweepExact describes |
| Reliable.EnqueueRepresents | internal/reliable/reliable.go:39-53 | the set of outstanding ids gains exactly the new id |
| Reliable.AckRepresents | internal/reliable/reliable.go:57-66 | the set of outstanding ids loses exactly the acknowledged id |
| Reliable.QueueHoldsOutstanding | internal/reliable/reliable.go:39-110 | over every run without id wrap the queue holds exactly the ids handed out and not acknowledged since, strictly increasing, each with its own payload |
| Reliable.SweepExact | internal/reliable/reliable.go:77-95 | a sweep returns exactly the entries past their deadline; their new deadline is in the future if and only if the back-off does not overflow; all others stay as they are |
| Reliable.DueInOrder | internal/reliable/reliable.go:77-95 | the entries returned are in increasing id order, so none twice |
| ReceiveWindow.RecvWindow.From | internal/reliable/reliable.go:127-129 | an empty window at the given id |
| ReceiveWindow.RecvWindow.Receive | internal/reliable/reliable.go:144-173 | new window and delivered payloads as the window specification says; the returned ids are empty for duplicates |
| ReceiveWindow.RecvWindow.Deliver | internal/reliable/reliable.go:162-170 | the delivery loop takes the maximal run of consecutive pending ids |
| ReceiveWindow.DrainTracks | internal/reliable/reliable.go:144-173 | draining delivers a contiguous slice of the sender's packets and loses nothing held |
| ReceiveWindow.ReceiveTracks | internal/reliable/reliable.go:144-173 | a sender's packet is held afterwards if and only if it was held or its id is below expected+8; deliveries continue the sender's order |
| ReceiveWindow.ArrivalsDeliverPrefix | internal/reliable/reliable.go:144-173 | under any losses, repetitions and reorderings the payloads delivered are a prefix of the sender's |
| Ctls.ControlTransport.constructor | internal/ctls/ctls.go:63-74 | an open transport with nothing in it, and whether others may close it during a call |
| Ctls.ControlTransport.OthersRun | internal/ctls/ctls.go:182-192 | a concurrent Close gets on by any number of its steps, flag first, then the channels in order |
| Ctls.ControlTransport.InjectInbound | internal/ctls/ctls.go:78-90 | refused exactly when closed at the check; otherwise panics exactly when the channel is closed by the time of the send, and then nothing is queued; otherwise the chunk is queued last |
| Ctls.ControlTransport.Read | internal/ctls/ctls.go:113-149 | leftover bytes first, then the next chunk, with the excess kept; end of file only once the channel is closed and empty |
| Ctls.ControlTransport.Write | internal/ctls/ctls.go:152-179 | refused exactly when closed at the check; a deadline that has passed before the send, or that the select takes, queues nothing and does not panic; otherwise panics exactly when the channel is closed by the time of the send |
| Ctls.ControlTransport.Close | internal/ctls/ctls.go:182-192 | closes and discards nothing |
| Ctls.ReadTakesPrefix | internal/ctls/ctls.go:113-149 | for every read size, what is read followed by what is left is what was there |
| Ctls.InjectAllExtends | internal/ctls/ctls.go:78-90 | chunks injected appear at the end of the unread bytes in order |
| ControlSession.SegmentsRebuildChunk | client.go:1778-1794 | the segments of a chunk concatenate to it; all are 1 to 1024 bytes and all but the last are full |
| ControlSession.Epoch.constructor | client.go:101-119 | a session starts with an empty transport, queue and window |
| ControlSession.Epoch.ReceiveControl | client.go:122-129 | what became in-order goes to TLS, in order and up to where a send panicked, and the returned ack list has no effect; a panic needs a concurrent close |
| ControlSession.Epoch.SendChunk | client.go:1778-1794 | the segmenting loop enqueues one packet per segment with consecutive ids |
| ControlChannel.DispatchWire | client.go:1870-1922 | building, parsing and dispatching packet i delivers its own payload under id base+i to the window and acknowledges that id |
| ControlChannel.NothingTooFarAhead | internal/reliable/reliable.go:144-173 | under the window invariant no id sent reaches expected+8 |
| ControlChannel.StepKeepsInv | client.go:1870-1888 | for every session, windowed or not: writes, segments, resets, retransmissions, arrivals either way and reads keep queue, network, window and byte stream in agreement |
| ControlChannel.DispatchExactly | client.go:1870-1922 | in every run of every session, dispatching packet i acknowledges it, and it is held afterwards if and only if its id is below expected+8 |
| ControlChannel.AlwaysHeldExactly | client.go:1870-1922 | for every session and every run, all acknowledgements are at every moment for held packets if and only if no packet arrived too far ahead |
| ControlChannel.StepKeepsWindow | client.go:1870-1888 | every step of a windowed sender keeps its ids within eight of its lowest unacknowledged one, every acknowledged id held, and drops nothing |
| ControlChannel.AcknowledgedIsHeld | client.go:1870-1888 | in every run with a windowed sender, every acknowledgement sent is for a packet delivered or buffered, and nothing in the network would be dropped as too far ahead |
| ControlChannel.ReadIsPrefixOfWritten | client.go:1778-1794 | end to end in every run of every session, the bytes TLS has read are a prefix of the bytes the peer's TLS wrote |
| ControlChannel.UnboundedSenderLosesAcknowledged | client.go:1870-1888 | without the window there is a run in which an acknowledged packet is not held |
| Rekey.PlanContents | client.go:1870-1947 | which packets make the dispatcher acknowledge which ids, take which id and give which signal; P_CONTROL_V1 never signals |
| Rekey.SignalFollows | client.go:1908-1945 | the reset-acknowledged signal comes right after packet 0 is taken off the queue |
| Rekey.StepKeepsDispatch | client.go:1829-1947 | at lock granularity, every operation on the session belongs to one of its packets received since registration, in that packet's order, and every packet but the one at hand is completely dealt with |
| RekeyBarriers.QueuedOrAcked | client.go:1890-1947 | whatever happens, an id leaves the session's queue only in a step that acknowledges it |
| RekeyBarriers.EmptyQueueAllAcked | client.go:2724-2746 | an empty queue means everything enqueued was acknowledged after it was enqueued |
| RekeyBarriers.StepKeepsInv | client.go:2446-2622 | every interleaved step of doRekey, dispatcher, send goroutine and ticker keeps signals, marks, queue and dispatcher in agreement |
| RekeyBarriers.PrepareOnlyAfterBarriers | client.go:2446-2622 | in every run TLS starts only after registration, our reset queued as packet 0, the peer's SOFT_RESET and an acknowledgement of packet 0 both received and signalled since registration, and no TLS segment before; Prepare in addition only after every packet enqueued by the final check was acknowledged |
| RekeyBarriers.FinalCheckExactly | client.go:2724-2746 | when the final check passes, everything TLS has written was enqueued and acknowledged if and only if no output is waiting for the send goroutine |
| RekeyBarriers.SegmentsNumberedFromOne | client.go:2446-2622 | in every run, failed ones and their closing alerts too, the TLS segments of the epoch carry packet ids 1, 2, 3, … |
| RekeyResets.ResetAckedExactly | client.go:1908-1945 | resetAcked is closed only if, and between packets exactly when, a P_ACK_V1 or SOFT_RESET of this key listing packet 0 was received since registration |
| RekeyResets.OwnResetQueuedExactly | client.go:2496-2510 | in every run our reset is in the queue if and only if no acknowledgement of packet 0 was handled since it was queued |
| RekeyResets.OwnResetAckedBeforeTls | client.go:2695-2720 | if no packet listing packet 0 arrived before the reset was queued, TLS starts only after the reset itself was acknowledged |
| RekeyResets.ResetMovesWindow | client.go:1890-1922 | the receive window has moved past packet 0 only if, and between packets exactly when, the session received a packet with id 0; TLS never starts without that when the peer's resets carry id 0 |
| RekeyRuns.OddResetLeavesWindow | client.go:2695-2720 | a run in which TLS starts although the window has not moved |
| RekeyRuns.EarlyAckStartsTls | client.go:1924-1947 | a run in which TLS starts while our own reset is unacknowledged in the queue |
| RekeyRuns.PiggybackedAckNotSignalled | client.go:1870-1888 | a run in which the reset is acknowledged and off the queue and nothing is signalled |
| RekeyRuns.UnsentOutputPrepared | client.go:2561-2622 | a run in which the new key is installed with TLS output neither queued nor acknowledged |
| Crypto.GcmSeal | internal/crypto/cipher.go:138-155 | adds exactly the 16-byte tag |
| Crypto.GcmOpenInvertsSeal | internal/crypto/cipher.go:138-175 | opening undoes sealing through the tag-first reordering |
| Crypto.NonceInjective | internal/crypto/cipher.go:119-128 | nonces are equal if and only if packet ids are |
| Crypto.Pad | internal/crypto/cbc.go:142-150 | padding reaches the next multiple of 16 and always adds something |
| Crypto.Pkcs7Pad | internal/crypto/cbc.go:142-150 | the fill loop computes the padding |
| Crypto.Pkcs7Unpad | internal/crypto/cbc.go:153-167 | the check loop decides unpadding on every input |
| Crypto.UnpadExactly | internal/crypto/cbc.go:142-167 | unpadding returns p if and only if the input is p padded, so it accepts nothing else |
| Crypto.CbcSeal | internal/crypto/cbc.go:63-91 | MAC, IV and padded ciphertext, of the length the budget counts on |
| Crypto.CbcOpenInvertsSeal | internal/crypto/cbc.go:63-132 | opening undoes sealing |
| Replay.AsWritten | internal/datachannel/datachannel.go:242-281 | after every run the top is the highest id accepted, is not accepted again, nothing 64 or more behind is accepted and everything above is |
| Replay.SecondCopyAccepted | internal/datachannel/datachannel.go:262-281 | ids 0, 1 and then 0 again are all accepted |
| Replay.FreshIdRefused | internal/datachannel/datachannel.go:242-281 | after ids 5, 3 and 6 the window refuses 4, which is in range and was never accepted |
| Replay.MeetsSpecIffSlotsAgree | internal/datachannel/datachannel.go:242-281 | the window accepts what the set of accepted ids says if and only if each slot agrees with that set |
| Replay.KeepsSpecExactly | internal/datachannel/datachannel.go:262-281 | from an agreeing state, marking an id keeps agreement if and only if the id does not move the top, jumps 64 or more, or every slot happens to shift right |
| Replay.AlwaysMeetsExactly | internal/datachannel/datachannel.go:242-281 | for every run: the window agrees with the set of accepted ids at every moment if and only if every id accepted was harmless when offered |
| Replay.JumpRestores | internal/datachannel/datachannel.go:262-281 | after every run, an id 64 or more above the top brings the window back to the specification |
| Replay.InOrderAccepted | internal/datachannel/datachannel.go:242-281 | strictly increasing ids are all accepted |
| Replay.InOrderExactly | internal/datachannel/datachannel.go:242-281 | after in-order traffic the window agrees with the set if and only if there was one packet or the last gap was 64 or more; otherwise recent ids pass again |
| RingReplay.ClearedExactly | internal/datachannel/datachannel.go:267-275 | the shift loop clears exactly the slots, by id modulo 64, of the ids that come into range |
| RingReplay.RingMeetsSpec | internal/datachannel/datachannel.go:242-281 | a variant that indexes by id everywhere accepts, after every run, exactly the ids not accepted before and less than 64 behind the highest |
| Compress.UnwrapInvertsWrap | internal/compress/compress.go:75-106 | in every mode the stub is stripped as it was added |
| DataChannel.Open | internal/datachannel/datachannel.go:169-229 | a packet refused for any reason leaves the replay window unchanged |
| DataChannel.SealedHeader | internal/datachannel/datachannel.go:232-239 | a sealed packet announces P_DATA_V2 and its epoch's key id |
| DataChannel.OpenInvertsSealed | internal/datachannel/datachannel.go:110-229 | in GCM and CBC form, a sealed packet opens to the plaintext and marks its id if the window lets the id through, and is refused without a trace if not |
| DataChannel.Channel.constructor | internal/datachannel/datachannel.go:94-105 | peer id cut to 24 bits, key id to 3, counter at zero, empty window |
| DataChannel.Channel.CheckReplay | internal/datachannel/datachannel.go:242-258 | decides as the window model does, without changing anything |
| DataChannel.Channel.MarkSeen | internal/datachannel/datachannel.go:262-281 | the in-place shift loop and final mark produce the window model's next state |
| DataChannel.Channel.Encrypt | internal/datachannel/datachannel.go:110-165 | seals under the current counter and advances it modulo 2^32 |
| DataChannel.EncryptAll | internal/datachannel/datachannel.go:110-130 | over any number of calls the i-th packet is the i-th plaintext sealed under the i-th id from the counter on, modulo 2^32 |
| DataChannel.Channel.Decrypt | internal/datachannel/datachannel.go:169-229 | result and window are those of Open |
| DataChannel.NoncesDistinct | internal/datachannel/datachannel.go:110-130 | two packets of an epoch share id and nonce if and only if they are a multiple of 2^32 apart |
| KeyManager.SelectedIsOwner | internal/datachannel/manager.go:152-164 | with distinct key ids, a live epoch's id selects that epoch |
| KeyManager.Manager.constructor | internal/datachannel/manager.go:81-96 | one live epoch, counters at zero |
| KeyManager.Manager.Encrypt | internal/datachannel/manager.go:104-119 | wraps, seals under the current epoch only, counts plaintext bytes |
| KeyManager.Manager.DecryptChannel | internal/datachannel/manager.go:152-164 | returns the first of current, secondary, previous with the packet's key id, or nothing |
| KeyManager.Manager.Decrypt | internal/datachannel/manager.go:126-145 | opens with the selected epoch; no other epoch's window changes, and none at all on refusal before that |
| KeyManager.Manager.NeedsRekey | internal/datachannel/manager.go:168-190 | never while a secondary key is pending; otherwise exactly when the time or byte limit is reached |
| KeyManager.Manager.Prepare | internal/datachannel/manager.go:198-208 | the new key becomes secondary and the previous one is dropped, so at most two are live |
| KeyManager.Manager.Promote | internal/datachannel/manager.go:214-224 | only the pending key with that id is promoted; otherwise nothing changes |
| KeyManager.Manager.Rotate | internal/datachannel/manager.go:228-237 | only the new key is live |
| KeyEpochs.StepKeepsInv | client.go:2419-2458 | beginning, failing, installing and promotion timers keep the epoch invariant in any order |
| KeyEpochs.LiveEpochs | client.go:2419-2458 | in every run secondary and previous are never both present, none is pending while an attempt runs, ids stay in 1..7, and two live epochs share an id if and only if both come from rekeys with 6 modulo 7 attempts between them |
| KeyEpochs.AttemptsBetweenFailed | client.go:2419-2458 | the attempts between two live epochs all failed |
| KeyEpochs.SelectedUnlessSixFailures | internal/datachannel/manager.go:152-164 | in every other case each live epoch's key id selects that epoch |
| KeyEpochs.SixFailuresCollide | client.go:2446-2458 | a run in which packets of the pending key are handed to the current one |
| DataPath.LiveOpens | internal/datachannel/manager.go:126-164 | any packet sealed under a live epoch reaches that epoch and opens to its plaintext if and only if its window lets the id through |
| DataPath.NoiseChangesNothing | internal/datachannel/manager.go:126-164 | a packet that selects no epoch, or that the selected epoch does not open, changes nothing |
| DataPath.OldestOpens | internal/datachannel/manager.go:126-164 | the oldest packet in flight of a live epoch opens to its plaintext and changes only that epoch's window |
| DataPath.StepKeepsInv | internal/datachannel/manager.go:104-224 | sending, losing, delivering, preparing, promoting, copies and stragglers up to the highest id seen, and unauthentic packets keep the path invariant |
| DataPath.DeliveryOpensToPlaintext | internal/datachannel/manager.go:104-164 | in every run, whatever is lost, replayed or forged and however keys are prepared and promoted, the next packet in order of a live epoch opens to the plaintext sealed, in both cipher modes |
| InternetChecksum.FoldResidue | internal/mssfix/mssfix.go:132-144 | folding keeps the sum modulo 65535 and never turns a nonzero sum into zero |
| InternetChecksum.ComplementVerifies | internal/mssfix/mssfix.go:132-144 | any sum plus the complement of its fold folds to 0xffff |
| InternetChecksum.WordSumPut | internal/mssfix/mssfix.go:132-144 | writing a 16-bit field at an even offset changes the sum by the difference of the values |
| InternetChecksum.AddBytes | internal/mssfix/mssfix.go:132-144 | adding word by word in 32 bits, odd byte included, is the sum of the big-endian words cut to 32 bits, for every length |
| InternetChecksum.FoldSum | internal/mssfix/mssfix.go:139-143 | the carry loop terminates with the fold |
| InternetChecksum.Checksum | internal/mssfix/mssfix.go:132-144 | the complement of the folded 32-bit sum, for every length |
| InternetChecksum.ChecksumVec | internal/mssfix/mssfix.go:172-188 | the same for pseudo-header and segment together |
| InternetChecksum.NoOverflow | internal/mssfix/mssfix.go:172-188 | up to 64 KiB behind a pseudo-header nothing is cut off |
| MssFix.WalkSame | internal/mssfix/mssfix.go:89-130 | the option walk depends only on the bytes before the value it finds |
| MssFix.OnlyTouched | internal/mssfix/mssfix.go:51-130 | clamping changes the MSS value and the checksum fields only |
| MssFix.IpChecksumVerifies | internal/mssfix/mssfix.go:51-71 | the rewritten IPv4 header sums to 0xffff |
| MssFix.FilledVerifies | internal/mssfix/mssfix.go:146-188 | whatever the pseudo-header, a segment whose checksum was filled in sums with it to 0xffff |
| MssFix.TcpChecksumVerifies | internal/mssfix/mssfix.go:146-170 | the rewritten segment with its pseudo-header (section 3.1 of RFC 9293, section 8.1 of RFC 8200) for the buffer's length sums to 0xffff |
| MssFix.ClampedCorrect | internal/mssfix/mssfix.go:20-188 | a clamped SYN of any length advertises maxMSS in its first well-formed MSS option, differs nowhere but there and in the checksums, has a valid IPv4 header checksum, up to 65535 bytes a valid TCP checksum, and a second clamp changes nothing |
| MssFix.ReceiverExactly | internal/mssfix/mssfix.go:146-170 | a receiver that goes by the IP header's length accepts the clamped SYN if that is the buffer's; if it is less, if and only if the excess bytes and the difference in length cancel modulo 65535; if it is more, never |
| MssFix.PutUint16 | internal/mssfix/mssfix.go:120-126 | writes the field in place |
| MssFix.ClampTCP | internal/mssfix/mssfix.go:89-130 | the option loop terminates, rewrites the first MSS option if it is above maxMSS, and says whether it did |
| MssFix.FixIPChecksum | internal/mssfix/mssfix.go:66-68 | in place, over the header with its checksum field zeroed |
| MssFix.FillTcpChecksum | internal/mssfix/mssfix.go:146-170 | the field is zeroed before the sum is taken and then filled in |
| MssFix.FixTCPChecksum4 | internal/mssfix/mssfix.go:146-157 | in place, over the IPv4 pseudo-header |
| MssFix.FixTCPChecksum6 | internal/mssfix/mssfix.go:159-170 | in place, over the IPv6 pseudo-header |
| MssFix.PaddedSynRefused | internal/mssfix/mssfix.go:146-170 | a clamped SYN in a buffer with zero bytes past its announced end fails the receiver's checksum |
| MssFix.Clamp4 | internal/mssfix/mssfix.go:51-71 | rewrites exactly the IPv4 SYNs above maxMSS, of any length, and leaves every other packet alone |
| MssFix.Clamp6 | internal/mssfix/mssfix.go:73-87 | the same for IPv6 without extension headers |
| MssFix.Clamp | internal/mssfix/mssfix.go:20-36 | every buffer, empty and malformed ones included, becomes what ClampedCorrect is about |
| MssFix.ClampToMTU | internal/mssfix/mssfix.go:38-49 | the clamp with the MSS the MTU leaves for the packet's own IP version |
| SizeBudget.SealedSize | internal/datachannel/datachannel.go:134-165 | what sealing adds: a constant in GCM, up to 15 bytes less than the maximum in CBC |
| SizeBudget.PacketFitsLink | client.go:2999-3059 | with defaults, a packet up to the derived MTU stays within 1450 bytes on the link, and a longer one does not, up to CBC padding |
| SizeBudget.ClampedAdvertises | internal/mssfix/mssfix.go:38-49 | after the clamp the SYN advertises at most the MSS derived from the MTU |
| SizeBudget.SegmentFitsLink | client.go:2999-3059 | every option-free segment within the MSS of any clamped SYN fits in 1450 bytes after compression, sealing, framing and outer headers, for all inner and outer IP versions and both ciphers |
| SizeBudget.SegmentFitsTun | client.go:3023-3059 | with another TUN MTU the same segments fit that MTU |
| TeardownInvariant.TurnKeepsInv | client.go:951-990 | every turn of a request, monitor, worker or setup keeps the closes of doneCh, the phase, the reauth flag and the credentials in agreement with what the run has seen so far |
| TeardownInvariant.SpawnKeepsInv | client.go:879-935 | and so does a goroutine newly started |
| TeardownInvariant.TeardownOnce | client.go:951-990 | with no setup in flight, in every interleaving of any number of requests, monitors and workers: at most one teardown, one close of doneCh, one reauth event; at quiescence exactly one if anybody asked, and credentials are empty if and only if a request did not preserve them or a monitor saw AUTH_FAILED |
| TeardownInvariant.DoneClosedExactly | client.go:879-990 | with any number of setups that succeed, fail or give up too: doneCh is closed twice only if, and at rest exactly when, a setup moved the state during a teardown or a disconnect won after the session had been ended; that takes a setup failing during a teardown or completing after one began; otherwise it is closed once if anybody ended the session |
| TeardownInvariant.CredentialsExactly | client.go:581-603 | credentials are always what was stored since they were last cleared; at quiescence after a non-preserving request they are exactly what setups stored after the session was ended and outside a teardown; and they are cleared only by such a request, a rejection or a failed setup |
| TeardownRuns.FailedSetupClosesTwice | client.go:2952-2970 | a run in which a setup fails during a teardown and doneCh is closed twice |
| TeardownRuns.CompletedSetupClosesTwice | client.go:879-935 | a run in which no setup fails, one completes after a teardown, and doneCh is closed twice by two teardowns |
| TeardownRuns.TokenSurvivesDisconnect | client.go:581-603 | a run that ends with every goroutine finished, credentials asked to be dropped, and the token still there |
| RouteLedger.Host.Add | routing/netlink.go:69-84 | an exclusive add succeeds only at a free destination, whatever the administrator did before it |
| RouteLedger.Host.Lookup | routing/netlink.go:81-88 | reports the route at the destination or fails |
| RouteLedger.Host.Remove | routing/netlink.go:81-88 | removes only the identical route |
| RouteLedger.Ownership.constructor | routing/ownership.go:46-49 | an open ledger over the given routes |
| RouteLedger.Ownership.Check | routing/ownership.go:52-78 | changes nothing; with no interference it reports exactly the drifts of every owned route; nothing after close |
| RouteLedger.DriftsExactly | routing/ownership.go:61-78 | a missing owned destination is always reported, nothing else is reported missing, and there is no drift if and only if every owned route is in place unchanged |
| RouteLedger.Ownership.Restore | routing/ownership.go:100-107 | finds the first owned route to the destination and adds only there |
| RouteLedger.Ownership.Repair | routing/ownership.go:82-110 | under interference it only adds, and only owned routes at free destinations; without it, every missing owned destination is back and nothing else changed; after close nothing happens |
| RouteLedger.Ownership.RemoveIdentical | routing/ownership.go:125-136 | one owned route is removed only if still identical |
| RouteLedger.Ownership.Cleanup | routing/ownership.go:114-138 | closes; under interference it only removes, and only owned routes; without errors every identical owned route is gone and nothing else; after close nothing happens |
| RouteLedger.CreatedIsNew | routing/netlink.go:69-80 | the routes recorded are distinct, were absent before and are among those asked for |
| RouteLedger.AppliedPresent | routing/netlink.go:52-140 | no route found is overwritten and every destination applied is routed afterwards |
| RouteLedger.CleanupRestores | routing/ownership.go:114-138 | for every table and every list of routes, removing the created ones restores the table |
| RouteLedger.Installation.Apply | routing/netlink.go:69-80 | a created route is recorded, an existing one is not adopted, any other error stops |
| RouteLedger.Installation.ApplyAll | routing/netlink.go:102-110 | the loop applies all of the pushed routes or those before the first failure |
| RouteLedger.Installation.ApplyIf | routing/netlink.go:96-100 | an optional route is applied, absent or refused like any other |
| RouteLedger.Installation.ApplyFamily | routing/netlink.go:102-116 | the default route comes after the family's pushed routes and only if they all went through |
| RouteLedger.Installation.MakeOwner | routing/netlink.go:64-68 | the ledger takes over exactly the routes created so far, after a failure too |
| RouteLedger.ApplyRoutesOwned | routing/netlink.go:52-140 | peer route, pushed routes and default routes of both families in order, all or up to the first failure; the ledger holds exactly the routes created |
| RouteLedger.ApplyThenCleanup | routing/ownership.go:114-138 | with no interference, applying any options, completely or not, and an error-free Cleanup leaves the host table exactly as it was |
| WebSocket.XorTwice | relay/relay.go:437-441 | masking a byte twice restores it |
| WebSocket.MaskedTwice | relay/relay.go:437-441 | masking any payload twice with one key restores it |
| WebSocket.MaskInPlace | relay/relay.go:437-441 | the in-place loop masks every byte with its key byte |
| WebSocket.ReadFrameInverts | relay/relay.go:395-441 | reading undoes sending for every frame below 2^32 bytes, masked or not, in all three length encodings (section 5.2 of RFC 6455) |
| WebSocket.DeadlineExactly | relay/relay.go:395-436 | for every frame and every position of a read deadline: harmless before and after the frame, one byte lost after the first header byte, an error everywhere else |
| WebSocket.DeadlineCorrupts | relay/relay.go:395-404 | a deadline after the first header byte makes the reader return another message |
| WebSocket.Reassembles | relay/relay.go:385-474 | for every split of a message into fragments, masked or not, with pings, pongs and pauses anywhere, the reader returns the message, answers every ping once in order, and skips an empty message |
| WebSocket.ReceivesAll | relay/relay.go:385-474 | repeated reads over any sequence of such messages return exactly the non-empty ones in order |
| WebSocket.Connection.constructor | relay/relay.go:372 | a connection with nothing sent |
| WebSocket.Connection.ReadFull | relay/relay.go:395-404 | the read loop takes exactly n bytes and leaves the rest; a deadline or the end before that loses exactly the bytes read so far |
| WebSocket.Connection.NextLength | relay/relay.go:410-423 | the three length encodings; of 64 bits only the low 32 |
| WebSocket.Connection.NextPayload | relay/relay.go:425-441 | key, payload and unmasking in place |
| WebSocket.Connection.NextFrame | relay/relay.go:395-441 | one frame as the frame specification reads it |
| WebSocket.Connection.Dispatch | relay/relay.go:443-472 | what each opcode does, with a pong for a ping whether or not the write succeeds |
| WebSocket.Connection.ReadMessage | relay/relay.go:385-474 | the loop returns the first message of the stream, leaves what follows unread, and has tried to send one masked pong per ping met, in order |
| WebSocket.EncodeFrame | relay/relay.go:484-510 | one final, masked frame, in the bytes that the reader inverts |
| WebSocket.Connection.SendFrame | relay/relay.go:484-518 | one such frame goes out after the earlier ones, all of it if success is reported and otherwise any part |
| ControlMessages.FirstNul | auth/saml/msg.go:270-273 | the index of the first NUL, with none before it |
| ControlMessages.Next | auth/saml/msg.go:252-289 | a message returned is NUL-free, within the limit, parses, and uses up part of the stream |
| ControlMessages.NextInvertsWrite | auth/saml/msg.go:252-313 | a message written is the next one read, and what follows it is untouched |
| ControlMessages.ReceivedInvertsWritten | auth/saml/msg.go:252-313 | repeated reads return exactly any list of messages written, in order, and then what follows |
| ControlMessages.ReplayChangesNothing | client.go:552-564 | a message read and put back in front, terminated, is read again unchanged, and so is everything after it |
| ControlMessages.ChunkingDoesNotShow | auth/saml/msg.go:259-269 | however the stream is cut into reads, the reader sees its concatenation |
| ControlMessages.Reader.Live | auth/saml/msg.go:252-258 | a reader over the live stream |
| ControlMessages.Reader.Replaying | client.go:3295-3318 | the preread wrapper reads the terminated message and then the live stream |
| ControlMessages.Reader.Read | client.go:3301-3318 | a one-byte read takes the next byte of preread data and then of the stream, and reports how the stream stops |
| ControlMessages.ReadControlMsg | auth/saml/msg.go:252-289 | the byte loop returns the next message, or the right error, and leaves the bytes after its NUL unread |
| ControlMessages.Writer.WriteString | auth/saml/msg.go:305-311 | a write may be cut short anywhere but never alters what it writes |
| ControlMessages.WriteControlMsg | auth/saml/msg.go:294-313 | refuses, writing nothing, exactly the messages with a NUL or over the limit; otherwise writes the terminated message or, on an error, a prefix of it |
| ControlMessages.ReadTwice | client.go:552-564 | phase one's message is read again in phase two, and the messages after it are those of the original stream |

## Left out

- AES, GCM, HMAC, TLS, key derivation and random generation: taken as functions with the laws named above, or as inputs.
- Sockets, netlink messages, TUN devices and ioctls: the kernel table is a map with exclusive add and remove-if-identical.
- PUSH_REPLY, profile, CRV1 and SAML parsing: string handling with easy claims; ParseControlMsg is a parameter that says which texts parse.
- DNS apply and its file-backed ledger: a smaller copy of the route ledger.
- Keepalive, inactivity and hard-reset timing: time is an integer input and any schedule is allowed.
- Compression beyond the one-byte stub.
- GUI, daemon, command line and mobile wrappers.
- 32-bit wrap of control packet ids: the control channel and renegotiation models stop sending before the id space is used up.
- Crypto.Pad: the block size is 16, the only value used.
- DataPath.DeliveryOpensToPlaintext: an epoch that is no longer live opens nothing; that none of its packets authenticates under a live one is taken from the cipher.
- RekeyBarriers.PrepareOnlyAfterBarriers: inbound packets appear as their parsed fields, which ControlPacket relates to bytes.
- RouteLedger.ApplyRoutesOwned: destinations are network and prefix length rather than the text made of them; a nil ledger is not modelled.
- WebSocket.Connection.ReadMessage: cancellation of the context is not modelled.
- KeyManager.Manager.Encrypt: byte counters are unbounded rather than 64-bit.
- Ctls.ControlTransport.InjectInbound: the channel's capacity is unbounded, so a blocked sender is one whose turn has not come.
- Ctls.ControlTransport.Write: the same, with the deadline's outcome as an input.
- TeardownInvariant.DoneClosedExactly: the run starts after Connect has reset the reauth flag, a client is not reused through SetRelayPhase2, and panics other than the second close of doneCh, such as misuse of the wait group, are not modelled.
