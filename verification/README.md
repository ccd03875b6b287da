# Verified model of a QUIC implementation with forward error correction

This project models the protocol cores of quic-go with its forward error correction extension and proves what they
promise over whole runs: key updates, stream reassembly and delivery, XOR block recovery, loss recovery, flow control,
connection IDs, acknowledgements, incoming streams and the encodings these rest on.

Objects that update their fields are classes; a method's contract ties the new state to the old one, and a module beside
it puts the objects into an environment (a network that loses, reorders and duplicates; a peer; an application) and
states what holds for every script of events. Pure code is functions and lemmas.

| files | component |
|---|---|
| `KeyUpdate`, `KeyUpdateProtocol` | 1-RTT key updates, section 6 of RFC 9001 |
| `FrameSorter`, `Reassembly` | reassembly of stream data, and the buffer-release callbacks |
| `StreamFrames`, `StreamFrameCodec`, `SendStream`, `ReceiveStream`, `StreamNetwork`, `StreamDelivery`, `StreamRun` | a stream end to end |
| `FlowControl`, `FlowLedger`, `FlowSession` | flow control for one stream, and for any number of streams on a connection |
| `Xor`, `FecBlock`, `FecManager`, `FecDelivery` | the XOR block code and its sender and receiver |
| `SentHistory`, `PacketNumbers`, `AckMerge`, `LossTimers`, `SentPackets`, `LossRun` | loss recovery, RFC 9002 |
| `StreamRecovery` | a send stream on top of loss recovery |
| `ReceivedHistory`, `ReceivedTracker` | received packet numbers and delayed ACKs |
| `ConnIdManager`, `ConnIdGenerator`, `ConnIdExchange`, `ConnIdRun` | connection IDs |
| `IncomingStreams` | stream limits, section 4.6 of RFC 9000 |
| `Varint`, `Settings` | variable-length integers and HTTP/3 SETTINGS frames |

`dafny verify dfyconfig.toml` checks everything.

A run returns a log of results, one per event. `Record` says how an event and its result change what can be seen from
outside, and `Right` says which results are right there; what a run promises is that every result is right, and exactly
when it ends before its script.

## What the proofs found

Six statements one would like to make are false of the code as it stands. Each is stated with its exact condition, and
with an input for which it fails.

- `popNewOrRetransmittedStreamFrame` uses a frame that `popNewStreamFrame` did not return. `SendStream.PopStreamFrame`
  reports this as `NilDereference`, exactly if there is no buffered frame and nothing to retransmit, data is waiting, the
  window is open and not even one byte fits (`NothingFits`); `SendStreams.RoomForNothing` leads a new stream there. The
  framer asks for at least 128 bytes, and then it cannot happen.
- A RESET_STREAM frame that arrives after the FIN, when the stream was neither cancelled nor read to its end and the
  connection is not shut down, leaves the stream `Stuck`: it is never reported complete and its flow-control credit is
  never returned (`ReceiveStream.HandleResetStreamFrame`, `ReceiveStreams.ResetAfterFin`). After a shutdown a reset is
  ignored. In every other case the stream is complete once it is reset.
- A packet is registered before the numbers below the lowest unconfirmed one are forgotten. If it raises this cut-off
  above all received numbers, its own included, nothing is left to acknowledge while the packet still waits for its ACK,
  and the frame that is made has no ranges (`ReceivedPackets.LeftExactly`, `ReceivedPackets.ConfirmationFromBelow`). It
  does not happen with a peer that numbers its packets in order, so that a packet only confirms ACKs for lower numbers
  (`ReceivedPackets.CutOffStaysBelow`).
- A repair symbol recovers a payload only at the moment it arrives: `FecDelivery.PassedExactly` says which payloads are passed
  up, and `FecDelivery.EarlyRepairIsNoUse` gives a run in which the receiver holds enough symbols and recovers nothing.
- Recovery panics exactly if the symbols of a block do not fit into a packet buffer, if a repair symbol is shorter than
  the two length bytes, or if the length that is decoded is larger than a buffer (`FecBlocks.RecoverSymbolPayloads`,
  `FecManagers.ShortRepair`). It never does for the repair symbols that the sender makes.
- `ResetForRetry` sets the bytes in flight to zero, which is right exactly if no Handshake packet is in flight
  (`SentPacketHandler.ResetForRetry`, `SentPackets.RetryForgetsHandshake`). This is an obligation of the caller and not a
  state that the program gets into: a Retry is ignored once any packet was received (connection.go:1071), and before
  that there are no Handshake keys to send with.

Two comments of the source differ from its code; the model follows the code. `maybeDeleteOldRanges` keeps 32 ranges, not
500. A probe timeout can skip a packet number directly after one that the generator has skipped.

## Model

| member | source | states |
|---|---|---|
| KeyUpdateProtocol.PhasesStayTogether | internal/handshake/updatable_aead.go:86-316 | in every run of two endpoints, under any loss, reordering, duplication and forgery, the key phases never differ by more than one |
| KeyUpdateProtocol.NoKeyUpdateError | internal/handshake/updatable_aead.go:180-268 | after every run, no possible next event makes either side raise KEY_UPDATE_ERROR, on receipt of a packet or of an acknowledgement |
| KeyUpdateProtocol.EveryRecentPacketOpens | internal/handshake/updatable_aead.go:180-242 | every genuine packet of the next or current phase opens; one of the previous phase opens unless its key was dropped, and when this is the case the next two rows say; older ones never open; none is further ahead |
| KeyUpdateProtocol.PreviousPacketOpens | internal/handshake/updatable_aead.go:86-242 | if a turn of the run opened the first packet of the current phase, a genuine packet of the previous phase opens exactly if neither it nor any packet since that turn is handled later than the drop delay after that turn; otherwise the keys have been dropped |
| KeyUpdateProtocol.UnconfirmedPacketOpens | internal/handshake/updatable_aead.go:86-242 | as long as no packet of the current phase was received, every genuine packet of the previous phase opens, however late |
| KeyUpdateProtocol.PhaseHasBegun | internal/handshake/updatable_aead.go:190-242 | a packet of the current phase was received exactly if some turn of the run was the first to open one |
| KeyUpdateProtocol.PreviousKeyIsKept | internal/handshake/updatable_aead.go:86-114 | the previous read key is kept until the peer has confirmed a locally started update |
| KeyUpdateProtocol.RightKeyIsTried | internal/handshake/updatable_aead.go:190-225 | a packet of the previous, current or next phase is tried under exactly the generation that sealed it |
| KeyUpdateProtocol.OldPacketFails | internal/handshake/updatable_aead.go:190-225 | no key that is still held fits a packet two or more phases old |
| KeyUpdateProtocol.GenuinePacket | internal/handshake/updatable_aead.go:180-242 | the outcome and the new state of opening a genuine packet, by the distance of its phase |
| KeyUpdateProtocol.AckIsTimely | internal/handshake/updatable_aead.go:258-268 | an acknowledgement for the current phase arrives only after the peer has answered in it |
| KeyUpdateProtocol.RollKeepsInv | internal/handshake/updatable_aead.go:274-316 | a locally started update keeps the two-sided invariant |
| KeyUpdateProtocol.StepKeepsInv | internal/handshake/updatable_aead.go:180-316 | every event keeps the two-sided invariant and raises no error |
| KeyUpdateProtocol.RunKeepsInv | internal/handshake/updatable_aead.go:86-316 | every run keeps the two-sided invariant |
| KeyUpdate.UpdatableAead.RollKeys | internal/handshake/updatable_aead.go:86-108 | the next keys become current and the current read key becomes previous |
| KeyUpdate.UpdatableAead.OpenUncounted | internal/handshake/updatable_aead.go:180-242 | `open` does on every input exactly what the transition function of the protocol proof does, about which the rows above say what opens and when the previous key is dropped |
| KeyUpdate.UpdatableAead.Open | internal/handshake/updatable_aead.go:166-178 | as above, with the count of invalid packets and its limit |
| KeyUpdate.UpdatableAead.Seal | internal/handshake/updatable_aead.go:244-256 | sealing follows the transition function |
| KeyUpdate.UpdatableAead.SetLargestAcked | internal/handshake/updatable_aead.go:258-268 | an acknowledgement follows the transition function; it is an error exactly if it is too early |
| KeyUpdate.UpdatableAead.ShouldInitiateKeyUpdate | internal/handshake/updatable_aead.go:274-305 | when a key update is due |
| KeyUpdate.UpdatesNeedAcks | internal/handshake/updatable_aead.go:274-285 | in every run of sealing, opening, acknowledging and confirming within a key phase, whichever side began it: the next update is allowed exactly if the handshake is confirmed and the last accepted acknowledgement covers a packet that was sealed in the phase, and then the peer has answered in it |
| KeyUpdate.FirstUpdateNeedsConfirmation | internal/handshake/updatable_aead.go:274-285 | in every run within phase 0 an update is allowed exactly if the handshake was confirmed |
| KeyUpdate.ConfirmedExactly | internal/handshake/updatable_aead.go:270-272 | the handshake counts as confirmed exactly if the object was told so |
| KeyUpdate.UpdateIsDue | internal/handshake/updatable_aead.go:287-305 | an allowed update happens exactly after 100 packets sent or received in phase 0, and after 100000 in later ones |
| KeyUpdate.UpdateHappens | internal/handshake/updatable_aead.go:286-316 | the same over every run within a phase, with the packets of the phase that were sealed and opened counted from the run |
| KeyUpdate.TooQuickExactly | internal/handshake/updatable_aead.go:206-225 | a packet of the next phase is KEY_UPDATE_ERROR exactly if nothing was sealed in the current phase, and this is not the first; otherwise it opens |
| KeyUpdate.Counts | internal/handshake/updatable_aead.go:166-256 | over every run: the invalid packets are the failed openings, the highest number is that of the packets that were opened, and within a phase the counters and the first number are those of the packets sealed and opened in it |
| KeyUpdate.LimitReachedExactly | internal/handshake/updatable_aead.go:166-178 | the limit error is reported exactly with a failed opening that makes the number of failures reach the limit |
| KeyUpdate.UpdatableAead.KeyPhase | internal/handshake/updatable_aead.go:307-316 | the keys are rolled exactly if an update is due, and the bit is the parity of the resulting phase |
| Reassembly.Run | frame_sorter.go:45-232 | slices of a stream pushed in any order, with overlaps and duplicates: what is read is exactly the longest prefix that has arrived, and every callback was called once, or handed out, or is held, and only one of these; it fails exactly if after some prefix of the script the bytes that have arrived leave more than 1000 gaps |
| Reassembly.ReadNext | frame_sorter.go:220-232 | popped data continues what was read; nothing is popped exactly if the next byte has not arrived |
| FrameSorting.CountGaps | frame_sorter.go:162-176 | the number of gaps is the number of holes in the set of bytes that have arrived, whatever the order of their arrival |
| FrameSorting.FrameSorter.Push | frame_sorter.go:45-178 | exactly the pushed bytes leave the gaps; the queue goes on carrying the stream; a callback that was called or handed out stays so; the error exactly if more than 1000 gaps remain |
| FrameSorting.FrameSorter.PushFrame | frame_sorter.go:56-178 | the new entry, the entries it replaces and their callbacks, and the gaps that remain, for every overlap; a small rest of a frame is copied and its buffer released |
| FrameSorting.FrameSorter.Pop | frame_sorter.go:220-232 | the entry at the read position is handed out with its callback; none exactly if the byte there is missing; no panic |
| FrameSorting.FrameSorter.FindStartGap | frame_sorter.go:180-190 | the first gap that does not end before an offset |
| FrameSorting.FrameSorter.FindEndGap | frame_sorter.go:192-203 | the gap in or before which a frame ends |
| FrameSorting.FrameSorter.DeleteConsecutive | frame_sorter.go:205-218 | removes exactly the run of entries from a position on, and calls their callbacks |
| FrameSorting.FrameSorter.ReplaceEntries | frame_sorter.go:85-112 | which entries a frame replaces and where an existing entry cuts it |
| FrameSorting.FrameSorter.FillGaps | frame_sorter.go:114-160 | the edits of the gap list punch exactly the new range out of the gaps |
| FrameSorting.PunchedMissing | frame_sorter.go:114-160 | the punched gap list misses exactly what was missing before and is not in the new range |
| FrameSorting.PunchedGapsOk | frame_sorter.go:114-160 | gaps stay in order, not empty and separated |
| FrameSorting.ReplacedPartition | frame_sorter.go:85-176 | the entries go on covering exactly the received bytes that were not popped |
| FrameSorting.InsertedLinear | frame_sorter.go:162-176 | after an insertion every callback has exactly one owner or was called once |
| FrameSorting.PoppedConsistent | frame_sorter.go:220-232 | popping keeps queue and gaps consistent |
| StreamRuns.Run | send_stream.go:103-371 | every result of every script is right: a write reports how much of its argument was taken, a frame carries a part of what was offered, what is read is the next part of it and has arrived, EOF comes only after Close and when all was read, completion at most once, and a delivery fails exactly if what has arrived leaves more than 1000 gaps, which alone ends a run early. From every reached state, if both windows were positive, sending and delivering on leads to the end: all that was offered is read, then EOF exactly if the stream was closed, and completion is reported exactly then |
| StreamDelivery.Pair.Finish | send_stream.go:222-371 | from any state, without failure: what was offered is read, EOF exactly if the stream was closed, one completion exactly then |
| StreamDelivery.Pair.SendAll | send_stream.go:241-293 | sending ends: every frame makes what is left smaller, and a blocked sender gets credit |
| StreamDelivery.Pair.Unblock | internal/flowcontrol/base_flow_controller.go:77-90 | flow control does not get stuck: when what was sent is read and the windows are advertised, the sender may send |
| StreamDelivery.Pair.AcknowledgeAll | send_stream.go:481-499 | when all frames are acknowledged, the stream is complete exactly if its FIN was sent |
| StreamDelivery.Pair.FrameIsWelcome | receive_stream.go:240-258 | a frame of the sender never violates flow control or the final size |
| StreamDelivery.Pair.Drain | receive_stream.go:95-201 | when every sent frame has been delivered, reading returns everything that was sent |
| StreamDelivery.Pair.DeliverAll | frame_sorter.go:45-178 | the frames that were sent can always be delivered in an order in which the receiver never has too many gaps |
| StreamNetwork.FirstByteFillsGap | frame_sorter.go:114-176 | a frame with the first missing byte never adds a gap |
| StreamDelivery.Pair.DoSend | send_stream.go:222-371 | sending keeps the two ends consistent; whenever something may be sent a frame is sent, and less is left to send |
| StreamDelivery.Pair.DoDeliver | receive_stream.go:228-258 | delivering any sent frame, any number of times, keeps the two ends consistent |
| StreamFrames.SplitKeepsContents | internal/wire/stream_frame.go:157-183 | the two parts of a split frame carry its data, offsets and FIN; the first part fits and could not hold one more byte |
| StreamFrames.MaxDataLenFits | internal/wire/stream_frame.go:132-152 | a frame with the computed amount of data fits into the given size |
| StreamFrames.MaxDataLenIsMost | internal/wire/stream_frame.go:132-152 | an amount of data fits exactly if it is at most the computed one, though the length field grows with the data |
| StreamFrames.NoRoomForOneByte | internal/wire/stream_frame.go:132-152 | the computed amount is zero exactly if not even one byte fits |
| StreamFrameCodec.RoundTrip | internal/wire/stream_frame.go:26-111 | parsing inverts appending, whatever follows, exactly if the data fit into a packet buffer and below the largest offset, and the frame says how long it is or nothing follows |
| StreamFrameCodec.AppendFrame | internal/wire/stream_frame.go:84-111 | an empty frame without FIN is refused and nothing else; the length of what is written is the one that was computed |
| StreamFrameCodec.LengthIsExact | internal/wire/stream_frame.go:113-123 | the computed length is that of the encoding |
| StreamFrameCodec.Parse | internal/wire/stream_frame.go:26-82 | the data of a parsed frame are the last bytes that it takes, fit into a packet buffer and stay below the largest offset |
| StreamFrameCodec.Unambiguous | internal/wire/stream_frame.go:26-111 | no two frames have the same encoding |
| SendStreams.SendStream.StartWrite | send_stream.go:103-160 | refused exactly after Close, cancellation, shutdown or the deadline; otherwise the data is held, if there is any |
| SendStreams.SendStream.ContinueWrite | send_stream.go:160-210 | a write ends when its rest fits into the 1452 bytes of the next frame, exactly then the rest is accepted at once; when its deadline passes, when all is taken, or on cancellation or shutdown; exactly the reported bytes have been accepted |
| SendStreams.SendStream.MaybeGetRetransmission | send_stream.go:340-348 | the first lost frame, or its head, leaves the queue, and fits; a head could not hold one more byte; nothing exactly if not one byte fits |
| SendStreams.SendStream.PopNewStreamFrame | send_stream.go:295-371 | a new frame carries the next bytes within the window and fits; it carries all that is waiting or all that the window allows, or one more byte would not fit; the exact condition under which there is none |
| SendStreams.SendStream.GetDataForWriting | send_stream.go:357-371 | as many bytes as asked for are taken from the front of what Write holds, or all of it |
| SendStreams.SendStream.PopNewOrRetransmittedStreamFrame | send_stream.go:241-293 | retransmissions come first; when a frame is popped, that it is filled, and the exact condition under which a missing frame is used |
| SendStreams.SendStream.PopStreamFrame | send_stream.go:222-239 | with 128 bytes of room a frame is popped exactly if there is something to send that flow control allows; it fits, and it carries all that it could: all that is waiting, all that the window allows, or so much that one more byte would not fit; if no more is announced, nothing is left or the stream has just reported that it is blocked; every byte below the write offset is in flight, queued for retransmission or acknowledged |
| SendStreams.SendStream.OnAcked | send_stream.go:481-499 | a panic exactly if nothing is in flight and the stream was not cancelled; for a frame in flight: the stream is complete exactly when the FIN was sent and nothing is in flight or queued, which is reported once; unless cancelled every accepted byte and the FIN are acknowledged then |
| SendStreams.SendStream.OnLost | send_stream.go:501-517 | a panic exactly if nothing is in flight and the stream was not cancelled; a lost frame is queued again, and no byte is forgotten |
| SendStreams.SendStream.Close | send_stream.go:382-398 | closing marks the end of the accepted data |
| SendStreams.SendStream.CancelWrite | send_stream.go:400-427 | cancelling drops everything and completes the stream at most once |
| SendStreams.SendStream.CloseForShutdown | send_stream.go:461-468 | a shutdown keeps what was sent consistent |
| SendStreams.RoomForNothing | send_stream.go:241-293 | a write that is too long for the buffer, then a request with no room for a byte: the missing frame is used |
| StreamRecovery.Run | internal/ackhandler/sent_packet_handler.go:441-471 | a stream whose frames are sent in packets, with the callbacks of loss recovery: every result of every script is right, and no callback panics; unless it is cancelled, the stream is reported complete, once, exactly if its end was sent, every frame was reported as acknowledged or lost and none waits for retransmission; and then every byte and the end were acknowledged; a run ends early only with an ACK that is refused |
| StreamRecovery.Sender.HandleSend | send_stream.go:222-239 | with room for a frame one is sent exactly if the stream has something to send that flow control allows, in a packet with a new number |
| StreamRecovery.PassOn | send_stream.go:481-517 | the callbacks of one operation of the sent packet handler are about frames that are in flight on the stream |
| StreamRecovery.ReportIsNew | internal/ackhandler/sent_packet_handler.go:441-471 | no frame is reported twice, as acknowledged or as lost |
| ReceiveStreams.ReceiveStream.Read | receive_stream.go:78-190 | returned bytes continue the stream and are charged to flow control; EOF exactly at the final offset; it fails exactly after a cancellation, a reset or a shutdown before the end, and then returns no bytes; it waits only for a byte that has not arrived; buffers that were read are released, once each |
| ReceiveStreams.ReceiveStream.DequeueNextFrame | receive_stream.go:192-201 | the next frame is the one at the read position, and the buffer of the one before is released |
| ReceiveStreams.ReceiveStream.HandleStreamFrame | receive_stream.go:228-258 | a frame is buffered, or ignored after cancellation; it is refused exactly if it contradicts the final size, exceeds a window or leaves more than 1000 gaps; a completed stream has returned all its credit |
| ReceiveStreams.ReceiveStream.HandleResetStreamFrame | receive_stream.go:260-293 | ignored after a shutdown; otherwise refused exactly if it contradicts the final size or exceeds a window; a reset completes the stream and returns its credit exactly if the final size was not known before; otherwise, unless it was cancelled or read to its end, the stream is stuck for good |
| ReceiveStreams.ReceiveStream.CancelRead | receive_stream.go:203-226 | cancelling returns the credit as soon as the final size is known, and at most once |
| ReceiveStreams.ReceiveStream.CloseForShutdown | receive_stream.go:306-311 | a shutdown keeps what was received consistent; reads fail from then on |
| ReceiveStreams.ResetAfterFin | receive_stream.go:269-293 | a FIN and then a reset of an unread stream: it is not complete, and the connection has not got its credit back |
| FlowSession.Run | internal/flowcontrol/stream_flow_controller.go:52-149 | for any number of streams every result of every script is right: a frame or reset is refused exactly if it contradicts the final size, exceeds an advertised limit or leaves more than 1000 gaps, which alone ends a run early; reads return what has arrived; limits rise. Otherwise the connection is charged with the sum over the streams and has got back the sum of what they read, or of all they received once abandoned; each stream is charged with the highest offset its frames have reached and is complete exactly if it was read to its end or abandoned |
| FlowLedger.LimitsOnlyGrow | internal/flowcontrol/base_flow_controller.go:77-118 | in every run no advertised limit, of a stream or of the connection, is ever taken back |
| FlowLedger.AlwaysWithin | internal/flowcontrol/stream_flow_controller.go:52-98 | in every run what is received stays within the advertised limits of each stream and of the connection, what is read has been received, and no more is given back than was received |
| FlowLedger.ChargedToTheHighest | internal/flowcontrol/stream_flow_controller.go:52-98 | in every run without a refusal a stream is charged with the highest offset its frames have reached |
| FlowSession.Session.HandleFrame | internal/flowcontrol/stream_flow_controller.go:52-98 | a frame is refused exactly if it contradicts the final size, exceeds a window or leaves too many gaps; otherwise exactly its stream's account changes, and the books of connection and streams stay in balance |
| FlowSession.Session.CancelReading | internal/flowcontrol/stream_flow_controller.go:111-118 | cancelling changes nothing but that the stream is abandoned as soon as its final size is known; the books stay in balance |
| FlowSession.Session.HandleReset | internal/flowcontrol/stream_flow_controller.go:52-98 | a reset is refused exactly if it contradicts the final size or exceeds a window; otherwise the stream has its final size |
| FlowSession.Session.ReadFrom | internal/flowcontrol/stream_flow_controller.go:100-109 | a read is credited to stream and connection, and moves no limit |
| FlowSession.Session.UpdateStreamWindow | internal/flowcontrol/stream_flow_controller.go:133-149 | no update after the final size; otherwise the limit that is returned is the new one, above the old one and at least the initial window ahead of what was read; there is none only as long as more than three quarters of the initial window are left; the connection's limit stays |
| FlowSession.Session.UpdateConnectionWindow | internal/flowcontrol/connection_flow_controller.go:73-84 | the same for the limit of the connection, ahead of what was given back; the limits of the streams stay |
| FlowControl.WindowNeverShrinks | internal/flowcontrol/base_flow_controller.go:77-118 | a window update is never below the window before, with auto-tuning, and leaves room to send |
| FlowControl.AutoTuning | internal/flowcontrol/base_flow_controller.go:92-118 | the window doubles, up to its maximum, exactly if more than half of it was read in this epoch, at a quarter of a window per round trip or faster |
| FlowControl.FirstEpoch | internal/flowcontrol/base_flow_controller.go:66-75 | the first epoch begins with the first read |
| FlowControl.NextUpdateDue | internal/flowcontrol/base_flow_controller.go:77-81 | after an update the next one is due exactly when a quarter of the window has been read |
| FlowControl.MinimumWindow | internal/flowcontrol/connection_flow_controller.go:86-100 | the connection window size becomes the larger of its old value and the one that is asked for, but no more than its maximum, exactly if the application allows it; otherwise it stays; a new epoch begins exactly if more was asked for; nothing else changes |
| FlowControl.StreamFlowController.GetWindowUpdate | internal/flowcontrol/stream_flow_controller.go:133-149 | no update after the final size; the limit is the new window, not below the old one; exactly if the stream window has grown, the connection window size is asked to become half more, and `MinimumWindow` says what this does |
| FlowControl.StreamFlowController.UpdateHighestReceived | internal/flowcontrol/stream_flow_controller.go:52-98 | when the final size is contradicted, when the window is exceeded, and what is charged to the connection otherwise |
| FlowControl.StreamFlowController.Abandon | internal/flowcontrol/stream_flow_controller.go:111-118 | the unread rest is credited to the connection, once |
| FlowControl.StreamFlowController.AddBytesRead | internal/flowcontrol/stream_flow_controller.go:100-109 | bytes read are credited to stream and connection |
| FlowControl.StreamFlowController.AddBytesSent | internal/flowcontrol/stream_flow_controller.go:120-127 | both levels count the bytes; if they are within what may be sent, that shrinks by exactly as much, and what was sent stays within both limits |
| FlowControl.ConnectionFlowController.IncrementHighestReceived | internal/flowcontrol/connection_flow_controller.go:49-61 | the connection's window is exceeded exactly if the sum is above it |
| FlowControl.ConnectionFlowController.GetWindowUpdate | internal/flowcontrol/connection_flow_controller.go:73-84 | the new connection window is not below the old one |
| FlowControl.ConnectionFlowController.EnsureMinimumWindowSize | internal/flowcontrol/connection_flow_controller.go:86-100 | the window size is raised exactly as far as `MinimumWindow` says |
| FecDelivery.Run | internal/fec/manager.go:111-227 | over a channel that loses and reorders, and delivers a source symbol at most once: the payloads of `Outcome`, and no others, are passed up, each once and with exactly the bytes that were sent |
| FecDelivery.PassedExactly | internal/fec/manager.go:160-227 | a payload is passed up if and only if it arrived, or a repair symbol of its complete block arrived when at most one source symbol of the block was missing |
| FecDelivery.EarlyRepairIsNoUse | internal/fec/manager.go:200-227 | a run in which the repair symbol comes first and a payload is lost though enough symbols arrive |
| FecDelivery.RepairFinishes | internal/fec/manager.go:160-198 | the repair symbol for the last missing payload passes exactly that payload up and finishes the block |
| FecDelivery.SourceArrives | internal/fec/manager.go:200-227 | a source symbol is held until its block is finished |
| FecManagers.Manager.AddSourceSymbolFrame | internal/fec/manager.go:123-158 | the repair frame is made exactly when a block is complete, and is the XOR of its padded payloads |
| FecManagers.Manager.HandleSourceSymbolFrame | internal/fec/manager.go:200-227 | a payload is passed up unless its block is processed; a complete block is processed |
| FecManagers.Manager.HandleRepairFrame | internal/fec/manager.go:160-198 | for any repair frame: with as many symbols as the block has payloads and one missing, what the symbols decode to is passed up and the block is processed, and it panics exactly if they do not decode; with fewer, the symbol is kept. A frame that was made for the block never panics, and the missing payload is passed up byte-exact |
| FecManagers.ShortRepair | internal/fec/block.go:73-86 | a repair symbol of fewer than two bytes panics as soon as there are enough symbols and one is missing |
| FecManagers.Manager.GetBlock | internal/fec/manager.go:123-140 | the block with an ID, created if it is new, none if it is processed |
| FecManagers.Manager.NextSSID | internal/fec/manager.go:111-117 | source symbol IDs count up from zero |
| FecBlocks.Block.AddSourceSymbol | internal/fec/block.go:56-71 | the first symbol with an ID stays; the longest length is tracked |
| FecBlocks.Block.AddRepairSymbol | internal/fec/block.go:73-86 | a repair symbol tells the longest length of the block |
| FecBlocks.RepairSymbols | internal/fec/xor.go:14-42 | the repair payload is the XOR of all padded payloads, in any order of iteration; impossible exactly for an incomplete or too long block or another number of repair symbols |
| FecBlocks.RecoverSymbolPayloads | internal/fec/xor.go:66-104 | for any symbols: what they decode to is returned and fills every gap of the block; a panic exactly if there is nothing to decode to, because symbols or the decoded length do not fit into a buffer; the internal error cannot occur |
| FecBlocks.Recovery | internal/fec/xor.go:66-104 | the repair symbol of a block and all payloads but one decode to the missing one, with its exact length and bytes |
| Xor.Recovers | internal/fec/xor.go:44-104 | the XOR of the repair payload and the other payloads starts with the missing payload and ends with its length |
| Xor.XorAllInsert | internal/fec/xor.go:44-56 | adding a payload to a block adds its padding to the XOR, wherever it comes |
| Xor.XorPayload | internal/fec/xor.go:44-56 | the in-place loop XORs a payload, and its length onto two bytes, onto a buffer, wherever these bytes lie |
| Xor.WideIsAll | internal/fec/xor.go:44-56 | if the length bytes follow all payloads, this is the XOR of the padded payloads |
| Xor.XorRepair | internal/fec/xor.go:58-64 | the in-place loop XORs a repair payload onto a buffer |
| LossRecovery.Run | internal/ackhandler/sent_packet_handler.go:234-915 | in every run over three spaces, from any first packet number: a packet is sent exactly if its keys are there, with a number above all that were used in its space; an ACK is an error only if it covers a number that was not used there, and such an ACK alone ends a run early; probes are asked for only where there are keys, and nothing may be sent at the limit before address validation. Otherwise the bytes in flight are those of the tracked packets; no frame gets more callbacks than it was given away for, and unless keys are dropped every frame got one or is still tracked |
| LossRecovery.NumbersAscend | internal/ackhandler/sent_packet_handler.go:762-773 | in every run the packet numbers of a space strictly ascend, also across a Retry |
| LossRecovery.AmplificationLimit | internal/ackhandler/sent_packet_handler.go:775-833 | in every run in which datagrams are sent only when the handler, asked before, did not refuse: before its address is validated, a peer is never sent as much as three times what it sent and one more datagram |
| LossRecovery.Step | internal/ackhandler/sent_packet_handler.go:158-928 | every event has a right result and keeps the accounts, and none reaches a panic |
| LossRecovery.StepOther | internal/ackhandler/sent_packet_handler.go:158-928 | an ACK, a timeout and a probe have the effects below, and the alarm is set anew |
| SentPackets.SentPacketHandler.SendPacket | internal/ackhandler/sent_packet_handler.go:234-293 | a packet with frames is tracked with all its data, its bytes are in flight, and it counts as a probe; its number has not been used; a skipped number is marked; the alarm is set anew |
| SentPackets.PacketNumberSpace.PopPacketNumber | internal/ackhandler/sent_packet_handler.go:762-773 | the popped number is the next one the history expects, a skipped one being registered |
| SentPackets.SentPacketHandler.ReceivedAck | internal/ackhandler/sent_packet_handler.go:308-392 | OnAcked is called for exactly the frames of the newly acknowledged packets, in ascending order; of the tracked packets exactly those remain that are neither acknowledged nor overdue; an error exactly for unsent and for skipped numbers; an ACK of nothing new changes nothing; probing ends exactly with new acknowledgements |
| SentPackets.SentPacketHandler.BadAck | internal/ackhandler/sent_packet_handler.go:308-438 | an ACK that is an error covers a number that was given to no packet since its space was started |
| SentPackets.SentPacketHandler.DetectAndRemoveAckedPackets | internal/ackhandler/sent_packet_handler.go:399-471 | exactly the acknowledged packets, and skipped numbers, leave the window, and removal never fails |
| SentPackets.SentPacketHandler.DetectLostPackets | internal/ackhandler/sent_packet_handler.go:606-670 | of the packets that were sent exactly those leave the window that are not above the largest acknowledged one and were sent more than the loss delay ago or are at least three numbers below it; the loss time is that of the first one that stays and is not above it |
| SentPackets.DetectionLosesOverdue | internal/ackhandler/sent_packet_handler.go:606-670 | what loss detection leaves are exactly the packets that are not overdue |
| SentPackets.MomentOfLoss | internal/ackhandler/sent_packet_handler.go:606-670 | the loss time that detection leaves is the last moment at which the first packet that it left is not lost; without one, no later moment loses anything |
| SentPackets.TimerLosesOverdue | internal/ackhandler/sent_packet_handler.go:672-684 | after the loss timer exactly the packets that are not overdue are left |
| SentPackets.AckLosesOverdue | internal/ackhandler/sent_packet_handler.go:308-392 | after an ACK of something new exactly the packets that are neither acknowledged nor overdue, for the new largest acknowledged number, are left |
| SentPackets.SentPacketHandler.OnLossDetectionTimeout | internal/ackhandler/sent_packet_handler.go:672-739 | either the overdue packets of the space with the earliest loss time are lost, or the probes of `ProbeRequested` are requested and nothing is lost; there is always a space to probe; in the application data space this uses up a packet number; the alarm is set anew |
| SentPackets.SentPacketHandler.QueueProbePacket | internal/ackhandler/sent_packet_handler.go:835-847 | the frames of exactly the first outstanding packet are queued, and the packet leaves the window; false exactly if there is none |
| SentPackets.SentPacketHandler.DropCryptoSpace | internal/ackhandler/sent_packet_handler.go:158-206 | the bytes of a dropped space are no longer in flight, and its frames get no callback; probing ends |
| SentPackets.SentPacketHandler.Drop0RTT | internal/ackhandler/sent_packet_handler.go:183-206 | exactly the leading 0-RTT packets are forgotten |
| SentPackets.SentPacketHandler.ResetForRetry | internal/ackhandler/sent_packet_handler.go:867-915 | all Initial and application data frames are lost, numbers go on, and the accounts are right exactly if no Handshake packet is in flight |
| SentPackets.RetryForgetsHandshake | internal/ackhandler/sent_packet_handler.go:867-915 | a Handshake packet, then a Retry: its bytes are in flight and not counted |
| SentPackets.SentPacketHandler.RemoveFromBytesInFlight | internal/ackhandler/sent_packet_handler.go:148-156 | the bytes in flight never become negative |
| SentPackets.SentPacketHandler.QueueFramesForRetransmission | internal/ackhandler/sent_packet_handler.go:849-865 | OnLost is called once for each frame with a handler; there are frames |
| SentPackets.SentPacketHandler.SetLossDetectionTimer | internal/ackhandler/sent_packet_handler.go:552-604 | the alarm is the one of `AlarmExactly` and `EarliestProbe`, and keeps the condition under which its firing finds a space to probe |
| SentPackets.SentPacketHandler.SetHandshakeConfirmed | internal/ackhandler/sent_packet_handler.go:917-928 | confirming the handshake keeps the accounts and the alarm condition |
| SentPackets.SentPacketHandler.ReceivedBytes | internal/ackhandler/sent_packet_handler.go:208-214 | received bytes only move the amplification limit and the alarm |
| SentPackets.SentPacketHandler.ReceivedPacket | internal/ackhandler/sent_packet_handler.go:216-221 | a Handshake packet validates the client's address |
| SentPackets.SentPacketHandler.NextSendMode | internal/ackhandler/sent_packet_handler.go:775-817 | nothing may be sent exactly if a peer whose address is not validated has been sent three times what it sent, or 25000 packets are tracked; probes come first, and there are keys for them; then only ACKs if congestion control or 20000 tracked packets say so; otherwise pacing decides |
| LossTimers.EarliestLossTime | internal/ackhandler/sent_packet_handler.go:473-490 | the loss time that is picked is the earliest one, of equal ones that of the earlier space, and its space is there |
| LossTimers.ProbeIsPossible | internal/ackhandler/sent_packet_handler.go:501-536 | when the alarm has been set, the probe timeout has nothing to do or names a space that is there |
| LossTimers.EarliestProbe | internal/ackhandler/sent_packet_handler.go:501-536 | the space with the earliest probe time is probed, of equal ones the earlier space, and application data only after the handshake is confirmed; before, only a client that awaits validation probes without outstanding crypto packets |
| LossTimers.ProbeRequested | internal/ackhandler/sent_packet_handler.go:686-738 | which mode and how many probes a timeout requests: one in the first space that is left if nothing is in flight and validation is awaited; otherwise two in the space with the earliest probe time, unless that has nothing outstanding while validation is awaited; the timeout is counted exactly if probes are requested |
| LossTimers.ProbesStayOk | internal/ackhandler/sent_packet_handler.go:672-739 | probes wait to be sent only in a space that is there; every operation of the handler keeps this |
| LossTimers.AlarmExactly | internal/ackhandler/sent_packet_handler.go:552-604 | an alarm is set exactly if a packet may be overdue, or if the peer may be sent to and address validation or an acknowledgement that can be read is awaited |
| AckMerge.FindAcked | internal/ackhandler/sent_packet_handler.go:399-438 | one ascending pass with a moving range index finds exactly the acknowledged packets, or the first skipped number that is acknowledged; its internal error cannot occur |
| AckMerge.Advance | internal/ackhandler/sent_packet_handler.go:415-429 | the range index decides membership in the ACK ranges exactly |
| AckMerge.AckedExactly | internal/ackhandler/sent_packet_handler.go:398-438 | the acknowledged packets are the tracked ones whose number is in some range, in ascending order |
| SentHistory.SentPacketHistory.SkippedPacket | internal/ackhandler/sent_packet_history.go:32-39 | the window as a map gains a marker, and its load stays |
| SentHistory.SentPacketHistory.SentNonAckElicitingPacket | internal/ackhandler/sent_packet_history.go:41-47 | the window as a map stays, and the numbers go on |
| SentHistory.SentPacketHistory.SentAckElicitingPacket | internal/ackhandler/sent_packet_history.go:49-56 | the window as a map gains the packet, and its load the packet's |
| SentHistory.SentPacketHistory.FirstOutstanding | internal/ackhandler/sent_packet_history.go:76-86 | the outstanding packet with the lowest number; none exactly if the counter is zero |
| SentHistory.SentPacketHistory.Remove | internal/ackhandler/sent_packet_history.go:92-121 | exactly the packet and the skipped numbers directly before it leave the map; the first slot stays filled; an error exactly if the number is not tracked |
| SentHistory.SentPacketHistory.GetIndex | internal/ackhandler/sent_packet_history.go:124-137 | the slot of a number in the window |
| SentHistory.SentPacketHistory.CleanupStart | internal/ackhandler/sent_packet_history.go:144-152 | cutting empty slots off the front changes neither the map nor the load |
| SentHistory.SentPacketHistory.DeclareLost | internal/ackhandler/sent_packet_history.go:161-177 | exactly the packet leaves the map, and its load the window |
| PacketNumbers.PacketNumberGenerator.Pop | internal/ackhandler/packet_number_generator.go:68-78 | the popped number is the one that Peek showed; a skipped number is the one before it, and the next number is not skipped |
| PacketNumbers.PacketNumberGenerator.GenerateNewSkip | internal/ackhandler/packet_number_generator.go:80-84 | the next number to skip is at least three ahead and within twice the period |
| ReceivedHistory.ReceivedPacketHistory.ReceivedPacket | internal/ackhandler/received_packet_history.go:39-47 | new exactly if not below the cut-off and not represented; the number joins the represented ones, and one is forgotten only if at least 32 higher ones were received |
| ReceivedHistory.ReceivedPacketHistory.AddToRanges | internal/ackhandler/received_packet_history.go:49-86 | exactly the number is added, and the ranges stay sorted, disjoint and not adjacent |
| ReceivedHistory.ReceivedPacketHistory.MaybeDeleteOldRanges | internal/ackhandler/received_packet_history.go:88-94 | only the oldest ranges above the maximum are removed |
| ReceivedHistory.ReceivedPacketHistory.DeleteBelow | internal/ackhandler/received_packet_history.go:97-116 | exactly the smaller numbers are removed |
| ReceivedHistory.ReceivedPacketHistory.AppendAckRanges | internal/ackhandler/received_packet_history.go:119-126 | the ACK ranges are well formed for the receiving parser and acknowledge exactly the represented numbers |
| ReceivedHistory.ReceivedPacketHistory.IsPotentiallyDuplicate | internal/ackhandler/received_packet_history.go:138-151 | true exactly for numbers below the cut-off or represented; false for a received number only if at least 32 higher ones were received |
| ReceivedPackets.Run | internal/ackhandler/received_packet_tracker.go:104-218 | in every run, each packet being registered before the numbers below its cut-off are forgotten: only packets below the cut-off or received before are rejected, and a duplicate is accepted only after at least 32 higher numbers; an ACK frame contains the accepted numbers above the cut-off and no others, except that one with at least 32 higher ones may be missing; a frame without ranges, which ends the run, exactly if nothing accepted is above the cut-off; no frame is returned only if nothing waits, or if one packet waits that is younger than max_ack_delay |
| ReceivedPackets.CutOffStaysBelow | internal/ackhandler/received_packet_handler.go:58-65 | no frame without ranges is made in a run in which no packet raises the cut-off above all numbers that were accepted |
| ReceivedPackets.LeftExactly | internal/ackhandler/received_packet_handler.go:58-65 | after a packet something is left to acknowledge if and only if it does not raise the cut-off above all accepted numbers, its own included |
| ReceivedPackets.AppDataTracker.SomethingLeft | internal/ackhandler/received_packet_tracker.go:133-142 | there is something to acknowledge if and only if the cut-off is at most the largest number observed |
| ReceivedPackets.ConfirmationFromBelow | internal/ackhandler/received_packet_handler.go:58-65 | packet 100, its ACK, then packet 50 that confirms it: the next ACK frame has no ranges |
| ReceivedPackets.AppDataTracker.ReceivedPacket | internal/ackhandler/received_packet_tracker.go:104-129 | an error exactly for old or duplicate packets; an ACK is queued exactly for the first packet, every second one, one that was reported missing or reveals a gap, and one with a congestion mark; otherwise the alarm is its arrival plus max_ack_delay |
| ReceivedPackets.AppDataTracker.GetAckFrame | internal/ackhandler/received_packet_tracker.go:199-218 | no frame exactly if nothing is pending, or if the caller can wait and the one pending packet is younger than max_ack_delay; the frame acknowledges exactly what is represented, with the delay since the highest number arrived; it has no ranges exactly if the cut-off is above the highest number |
| ReceivedPackets.AppDataTracker.IsMissing | internal/ackhandler/received_packet_tracker.go:144-150 | whether the last ACK reported the packet missing |
| ReceivedPackets.AppDataTracker.IgnoreBelow | internal/ackhandler/received_packet_tracker.go:133-142 | exactly the numbers below the cut-off are forgotten, and it only rises |
| ReceivedPackets.AcksPacket | internal/wire/ack_frame.go:240-250 | the binary search finds a number exactly if some range contains it |
| ConnIdRuns.Run | conn_id_manager.go:58-210 | every result of every script is right, and no error is ever raised: an announced number that was issued is learned; the peer uses a number it has learned and not retired, leaves the first one as soon as it can, and retires only what it has left behind; a retirement is accepted; every number the peer has learned is the one in use, waits above it in the queue, which is never full, or was retired below it |
| ConnIdExchange.NeverTooMany | conn_id_generator.go:52-111 | the peer never stores more connection IDs than the endpoint keeps active |
| ConnIdExchange.RetireIsFine | conn_id_generator.go:70-87 | a retired number was issued, and its packet was sent to another connection ID |
| ConnIdExchange.Exchange.DoAnnounce | conn_id_manager.go:58-109 | an announced connection ID is never refused |
| ConnIdExchange.Exchange.DoRetire | conn_id_generator.go:70-95 | a retirement is never a protocol violation |
| ConnIdManagers.ConnIDManager.Add | conn_id_manager.go:58-109 | for any frame with Retire Prior To up to its number: learned numbers stay partitioned; a conflict exactly if another ID or token was received for the number; the limit error exactly if the queue is full; exactly the numbers below Retire Prior To are retired, with one frame for each, first those that wait and then the active one, and then the lowest number that is left becomes active; a frame that comes too late is retired itself; nothing else leaves |
| ConnIdManagers.ConnIDManager.AddConnectionID | conn_id_manager.go:111-142 | the queue stays strictly ascending and gains exactly the connection ID |
| ConnIdManagers.ConnIDManager.UpdateConnectionID | conn_id_manager.go:144-160 | the lowest queued number becomes active and the active one is retired; exactly the active reset token is registered |
| ConnIdManagers.ConnIDManager.RetireQueued | conn_id_manager.go:78-93 | exactly the queued numbers below the bound are retired, in order |
| ConnIdManagers.ConnIDManager.Get | conn_id_manager.go:190-210 | after the handshake the first connection ID is not used if another is known; with two more known, each is used for fewer packets than its random limit; no other changes |
| ConnIdGenerators.ConnIDGenerator.SetMaxActiveConnIDs | conn_id_generator.go:52-68 | as many connection IDs are active as the peer stores, up to the maximum |
| ConnIdGenerators.ConnIDGenerator.Retire | conn_id_generator.go:70-95 | every number but zero is replaced; the two violations exactly for numbers never issued and for the connection ID in use |
| ConnIdGenerators.ConnIDGenerator.IssueNewConnID | conn_id_generator.go:97-111 | numbers are issued in sequence and announced; exactly the active connection IDs are routed |
| IncomingStreams.Run | streams_map_incoming.go:59-185 | every event has exactly the effect of the specification: a stream is refused exactly beyond the limit, streams are accepted as 1, 2, 3 and so on, also when they complete first, and are open until accepted and completed; in every state open streams and credit add up to the maximum unless the limit is 2^60; the limits that are sent strictly increase |
| IncomingStreams.IncomingStreamsMap.GetOrOpenStream | streams_map_incoming.go:101-139 | all lower streams are opened; refused exactly above the limit; nothing is returned exactly for streams that are gone |
| IncomingStreams.IncomingStreamsMap.DeleteStream | streams_map_incoming.go:141-185 | a stream that was not accepted is only marked; otherwise it is removed and the limit raised |
| IncomingStreams.IncomingStreamsMap.AcceptStream | streams_map_incoming.go:59-99 | the next number in order, or none exactly if all opened streams were accepted; a stream that has completed is removed |
| IncomingStreams.DeleteRaisesLimit | streams_map_incoming.go:171-183 | deleting an accepted stream raises the limit above all before, unless it is at its maximum |
| Varint.ReadEncoded | quicvarint/varint.go:25-119 | for every number up to 2^62-1 and every admissible length, reading inverts encoding, whatever follows |
| Varint.AppendWithLen | quicvarint/varint.go:94-119 | the byte loops produce the encoding in the given length |
| SettingsFrames.RoundTrip | http3/frames.go:105-187 | parsing an encoded SETTINGS frame gives the settings back, for any iteration orders of the map, exactly if no reserved number is used as another setting and the payload is at most 8192 bytes |
| SettingsFrames.Parse | http3/frames.go:105-159 | a payload is accepted exactly if it is at most 8192 bytes long and a list of settings of which none occurs twice and whose flags are 0 or 1; a flag is set exactly if its identifier occurs with the value 1, and the other settings are exactly those listed |
| SettingsFrames.MeansWhatItLists | http3/frames.go:118-158 | the same for any list of settings |
| SettingsFrames.AppendSettings | http3/frames.go:161-187 | the length in the header is that of the payload, though the map is iterated twice |
| SettingsFrames.EncodedMeansItself | http3/frames.go:105-187 | the encoded settings mean the frame itself exactly if it uses no reserved number |

## Left out

- FecDelivery.Run: source symbols are delivered at most once, because duplicates are dropped by packet number before (connection.go); a manager that is given a source symbol twice passes it up twice.
- StreamRuns.Run: cancellation, resets and shutdown are covered one operation at a time, not in the end-to-end run; windows of size zero never open, as in the source.
- LossRecovery.Run: an ACK of a skipped number ends the run, because the source leaves the bytes in flight as they are and closes the connection; a Retry is acted upon only while nothing is tracked in the Handshake space; that an ACK of an unused number is an error is not claimed for numbers whose markers have left the history.
- StreamRecovery.Run: a packet carries one frame of one stream; what the callbacks of other frames do is not part of it.
- SentPackets.SentPacketHandler.NextSendMode: what the congestion controller and the pacer say are inputs.
- SentPackets.SentPacketHandler.SetLossDetectionTimer: probe timeouts and the loss delay are inputs; RTT estimation and exponential backoff are not modelled.
- IncomingStreams.Run: the configured maximum is at most 2^60, as the configuration enforces.
- ConnIdRuns.Run: connection IDs never repeat, and the initial connection ID is the one that the endpoint has issued; preferred addresses and Retry are not part of it.
- KeyUpdateProtocol.PhasesStayTogether: authenticated encryption is ideal (a packet opens under exactly the generation that sealed it); key derivation and header protection are not modelled.
- SentPackets.SentPacketHandler.DropCryptoSpace: packets are values, so the frame list and the in-flight flag that the source clears on packets leaving the history are not visible afterwards; iterating over the history while it is edited is a loop over the entries as they were.
- FrameSorting.FrameSorter.Push: offsets stay below 2^62-1, the largest stream offset.
- Blocking: Read and Write are modelled as restartable steps; whether a write deadline has passed is an input; read deadlines, mutexes and channels are not modelled.
- Integer widths: counters and offsets are unbounded, and the window factors 0.75 and 1.5 are exact fractions.
- Congestion control, pacing, ECN validation, MTU discovery and tracing.
- Reed-Solomon and other erasure codes than XOR; the adaptation of block sizes.
- Stream frames inside source symbols are not registered with loss recovery in the source, so no retransmission is claimed for them.
- TLS, packet packing and parsing, the encoding of frames other than STREAM, sockets, HTTP/3 beyond SETTINGS, and logging.
