# FusionDesk core model

A Dafny model of the transport-neutral core of FusionDesk and proofs of what that core is for. Five groups
of components are modelled, each in the form its source has: objects that update their fields are classes
proved against specification functions, and pure code is functions and lemmas.

- **Wire framing.** `ByteIo`, `Crc`, `ProtocolValidator`, `PacketCodec`, `PacketCodecLaws` and
  `PacketChannel` cover the 100-byte packet header with its two CRC-32 checksums (the reflected 0xEDB88320
  polynomial of section 8 of RFC 1952), the frame codec, and the loop that cuts frames out of a byte stream.
- **Scheduling.** `SchedulerLog`, `PriorityScheduler`, `ChannelDefaults`, `ChannelRegistry`,
  `NetworkManager`, `RequestTracker` and `RemoteReads` cover the bounded priority queues, the registry that
  gates every send, the manager that drives scheduler, registry and router, and request tracking.
- **Modules.** `NetworkRouter`, `ModuleIngress`, `ModuleHost`, `ModuleComposer` and `CompositionLaws` cover
  subscriptions, the transactional batch start with rollback, and the selection, versions and dependency order of a
  composition.
- **Clipboard transfer.** `LargeDataScheduler`, `BulkResponses`, `FileRangeTransfer` and `DragSession` cover
  flow-control credit, chunked reads of remote files, and drag sessions between two peers.
- **Payload codecs.** `CapabilityCodec`, `CapabilityNegotiation`, `FileNames`, `FileNameLaws`, `FileListCodec`,
  `FileListLaws` and `FileListAcceptance` cover the capability and file-list payloads, the negotiation, and the name sanitisers.

Integer widths are explicit (`uint8` to `uint64` are subset types) and wrap-around is written out where the
code relies on it. The wire enumerations are open: a decoder casts any integer into them, so they are that
integer. Answers of the environment (a channel's send, a module's own start, a native sink, a local read)
are parameters of the operation that receives them. Two specifications keep a ghost history next to the
real fields: the scheduler's log of arrivals, and a clipboard peer's log of what it sent, received and told
its sink.

## Where the code does less than it seems to

Each of these is proved as an exact condition; for several a member also gives an input or a run where it happens.

- A one-byte change is always noticed only if both checksum options are on (`PacketCodecLaws.OneByteCorruption`,
  `PacketCodecLaws.UnseenHeaderChange`, `PacketCodecLaws.UnseenPayloadChange`).
- Header bytes 19, 22 and 23 and all capability flag bits but the lowest are dropped by decoding, and a checksum
  that is not verified is not kept either, so bytes to value to bytes is the identity exactly when those bits are
  zero and both checksums are right (`PacketCodecLaws.EncodeDecode`, `CapabilityCodec.EncodeDecode`).
- A packet whose payload is longer than its 32-bit length field can say does not round-trip even when it
  validates (`PacketCodecLaws.DecodeEncode`).
- A header the channel cannot read makes it discard everything buffered. What a stream yields is independent of
  how it was cut exactly when no header is unreadable or nothing follows the first that is
  (`PacketChannel.ChunkingDoesNotMatter`, `PacketChannel.CuttingMattersAfterBadHeader`).
- A flush of a packet that was just accepted can send another one and leave it queued. It sends that very packet
  exactly when the queue holds no other that passes for it, which two clipboard events with equal identity fields
  do (`NetworkManager.AdmittedIsFound`, `NetworkManager.FlushSendsTheTwin`).
- A stream start passes validation without a message id or a timeout and then cannot be tracked
  (`RequestTracker.ValidatedPacketsAreTrackable`).
- `bind` on a ready channel leaves the snapshot's ready flag set. The flag is right after a `bind` exactly when it
  was off before, and in any state exactly when the channel is not one that was bound again while ready
  (`ChannelRegistry.ChannelRegistry.Bind`, `ChannelRegistry.ReadyFlagIsRightExactlyWhen`).
- A failed restart of a module that was already registered leaves its subscriptions. So a batch that fails leaves no
  ingress exactly when all that was registered before belonged to modules the batch had started
  (`ModuleHost.AllOrNothing`); and before the modules have answered, one can be sure of that exactly when nothing
  was registered (`ModuleHost.NoIngressLeftExactlyWhenNoneBefore`). `ModuleHost.LeftoverIngress` is a run.
- With a partial start a dependency only has to be mounted, not started. Started modules are sure to have their
  dependencies started exactly when no module that may start requires another
  (`ModuleHost.PartialStartHonoursDependenciesExactlyWhen`); `ModuleHost.PartialStart` is a run.
- A second drag start replaces the first at the sink without a cancel, exactly when a session is open and nothing
  else stands in the way of the start (`DragSession.StartReplacesOpenSessionExactlyWhen`);
  `DragSession.OverlappingDrags` is a run.

## Model

| member | source | states |
|---|---|---|
| ByteIo.WriteU8At | include/fusiondesk/core/protocol/byte_io.h:15-21 | an in-bounds write puts the byte at the offset and touches nothing else; out of bounds it changes nothing and says so |
| ByteIo.WriteU16At | include/fusiondesk/core/protocol/byte_io.h:23-30 | the same for two big-endian bytes |
| ByteIo.WriteU32At | include/fusiondesk/core/protocol/byte_io.h:32-41 | the same for four |
| ByteIo.WriteU64At | include/fusiondesk/core/protocol/byte_io.h:43-52 | the same for eight |
| ByteIo.ReadsU16 | include/fusiondesk/core/protocol/byte_io.h:62-70 | reading where a 16-bit value was written gives that value |
| ByteIo.ReadsU32 | include/fusiondesk/core/protocol/byte_io.h:72-81 | the same for 32 bits |
| ByteIo.ReadsU64 | include/fusiondesk/core/protocol/byte_io.h:83-92 | the same for 64 bits |
| ByteIo.U64OfRead | include/fusiondesk/core/protocol/byte_io.h:43-92 | writing what was read gives the bytes back: reads and writes are inverse both ways |
| ByteIo.ReadsBigEndian16 | include/fusiondesk/core/protocol/byte_io.h:62-70 | a 16-bit read gives the number in those bytes, most significant first |
| ByteIo.ReadsBigEndian32 | include/fusiondesk/core/protocol/byte_io.h:72-81 | so does a 32-bit read |
| ByteIo.ReadsBigEndian64 | include/fusiondesk/core/protocol/byte_io.h:83-92 | so does a 64-bit read |
| Crc.Crc32 | src/core/protocol/packet_codec.cpp:239-250 | the in-place loop over bytes and bits computes the CRC specification |
| Crc.BitStepInjective | src/core/protocol/packet_codec.cpp:244-247 | the branch-free bit step loses no information |
| Crc.ByteStepInjective | src/core/protocol/packet_codec.cpp:242-248 | from one register, different bytes lead to different registers |
| Crc.ChecksumFromInjective | src/core/protocol/packet_codec.cpp:239-250 | over the same bytes, of any length, different registers lead to different checksums |
| Crc.OneByteChangesChecksum | src/core/protocol/packet_codec.cpp:239-250 | changing any one byte of data of any length changes its checksum |
| Crc.CheckValue | src/core/protocol/packet_codec.cpp:239-250 | the published checksum of one octet, which fixes the polynomial, the start value and the final complement |
| ProtocolValidator.ValidExactlyWhen | src/core/protocol/protocol_validator.cpp:13-79 | a packet validates if and only if version, session, channel and size are accepted, every enumeration value has a name, and the packet carries what its kind must: requests, cancels and events that want an answer are answerable, responses, acks, errors and progress name what they answer, stream messages are correlated |
| ProtocolValidator.RefusedBecause | src/core/protocol/protocol_validator.cpp:13-79 | unsupported exactly for a version, too large only for the size, an invalid argument otherwise |
| ProtocolValidator.AnswersAreValid | src/core/protocol/protocol_validator.cpp:44-63 | whatever answers a valid request as a response, an error or progress is valid |
| PacketCodec.Encode | src/core/protocol/packet_codec.cpp:87-121 | the buffer written field by field in place is exactly the frame: header fields, padding, payload and both checksums |
| PacketCodec.WriteFields | src/core/protocol/packet_codec.cpp:92-113 | the fixed-offset writes fill the header up to the checksums and leave the rest zero |
| PacketCodec.WriteChecksums | src/core/protocol/packet_codec.cpp:115-120 | payload checksum first, then the header checksum over the header with its own field zeroed |
| PacketCodec.HeaderForChecksum | src/core/protocol/packet_codec.cpp:64-70 | exactly the four header-checksum bytes become zero and no other byte changes |
| PacketCodecLaws.FrameReadsBack | src/core/protocol/packet_codec.cpp:87-237 | every field of an encoded frame reads back as the packet, and both stored checksums match |
| PacketCodecLaws.DecodeEncode | src/core/protocol/packet_codec.cpp:87-237 | decode(encode(p)) = p exactly for packets that validate and whose payload length fits 32 bits, with any checksum options |
| PacketCodecLaws.EncodeDecode | src/core/protocol/packet_codec.cpp:87-237 | an accepted frame, whichever checksums were verified, re-encodes to itself exactly when bytes 19, 22 and 23 are zero and both stored checksums are right |
| PacketCodecLaws.HeaderCorruptionDetected | src/core/protocol/packet_codec.cpp:123-205 | any one changed header byte makes decode fail when the header checksum is verified |
| PacketCodecLaws.PayloadCorruptionDetected | src/core/protocol/packet_codec.cpp:190-205 | any one changed payload byte makes decode fail when the payload checksum is verified |
| PacketCodecLaws.UnseenHeaderChange | src/core/protocol/packet_codec.cpp:177-188 | without the header checksum some one-byte change decodes |
| PacketCodecLaws.UnseenPayloadChange | src/core/protocol/packet_codec.cpp:190-205 | without the payload checksum some one-byte change decodes, if any payload is allowed |
| PacketCodecLaws.OneByteCorruption | src/core/protocol/packet_codec.cpp:87-250 | every one-byte change of every encoded packet is rejected if and only if both checksums are verified (or no payload is allowed) |
| PacketCodecLaws.AnswersRoundTrip | src/core/protocol/packet_codec.cpp:87-237 | every answer to a request that round-trips names it and round-trips too |
| PacketCodecLaws.FieldOffsets | src/core/protocol/packet_codec.cpp:13-34 | at which byte of a frame, and how wide, every field stands, as a big-endian number; which bytes are padding; the payload follows |
| PacketCodecLaws.ReadableExactlyWhen | src/core/protocol/packet_codec.cpp:123-165 | a reader takes a frame exactly when magic, header length and version are right, the payload is allowed and all there, and waits exactly when only bytes are missing |
| PacketCodecLaws.AcceptedExactly | src/core/protocol/packet_codec.cpp:167-237 | bytes decode to a packet if and only if, padding and checksums aside, they are the bytes of its frame, the checksums that are verified are right, and the packet is valid |
| PacketCodecLaws.RefusedBecause | src/core/protocol/packet_codec.cpp:123-237 | every status of a refusal, in the order the decoder looks |
| PacketChannel.QtPacketChannel.OnBytes | src/adapters/qt/qt_packet_channel.cpp:65-97 | the reassembly loop leaves the rest, counters and submitted packets that cutting the whole buffer into frames gives |
| PacketChannel.Resume | src/adapters/qt/qt_packet_channel.cpp:65-97 | whatever part a was cut off before an unreadable header, reassembling a and then b equals reassembling a + b |
| PacketChannel.UnreadableEnds | src/adapters/qt/qt_packet_channel.cpp:74-78 | an unreadable header ends the reassembly: whatever follows it in the buffer changes nothing |
| PacketChannel.SafeCutting | src/adapters/qt/qt_packet_channel.cpp:65-97 | a stream safe to cut yields the same for every cutting, whatever part of it was already waiting |
| PacketChannel.UnsafeCutting | src/adapters/qt/qt_packet_channel.cpp:74-78 | for every other stream, cutting behind the first unreadable header yields something else |
| PacketChannel.LostExactlyWhenUnreadable | src/adapters/qt/qt_packet_channel.cpp:65-97 | the buffer is discarded exactly when a header that is reached cannot be read |
| PacketChannel.ChunkingDoesNotMatter | src/adapters/qt/qt_packet_channel.cpp:65-97 | what a stream yields is the same however it is cut, if and only if no header in it is unreadable or nothing follows the first that is |
| PacketChannel.CuttingMattersAfterBadHeader | src/adapters/qt/qt_packet_channel.cpp:74-78 | a good frame behind an unreadable header is lost if both arrive together and delivered if it arrives alone |
| PacketChannel.DeliversFrames | src/adapters/qt/qt_packet_channel.cpp:65-97 | for well-framed streams each frame is decoded on its own in order; one that fails to decode loses only itself |
| PacketChannel.DeliversPackets | src/adapters/qt/qt_packet_channel.cpp:65-97 | any list of packets the codec round-trips, cut anywhere, arrives as exactly that list |
| PacketChannel.EveryFrameCounts | src/adapters/qt/qt_packet_channel.cpp:79-95 | every well-framed frame is one packet or one counted failure |
| SchedulerLog.AdmitBoundsDepth | src/core/network/priority_scheduler.cpp:8-41 | a channel never grows beyond the larger of its old count and its limit; a queued packet adds one less what was dropped; otherwise nothing changes |
| SchedulerLog.AdmitKeepsOtherChannels | src/core/network/priority_scheduler.cpp:8-41 | enqueue never touches another channel's packets or their order |
| SchedulerLog.AdmitKeepsKeyFrames | src/core/network/priority_scheduler.cpp:128-154 | without the drop-oldest policy every queued key frame stays, in order |
| SchedulerLog.NextPrecedesAll | src/core/network/priority_scheduler.cpp:43-53 | the next packet is the one that precedes every other queued one: enqueued with a smaller priority value, or the same and earlier, where values out of range count as the least urgent |
| SchedulerLog.AdmittedIsLevelled | src/core/network/priority_scheduler.cpp:8-41 | a queued packet comes last, with the priority it was given |
| SchedulerLog.PoliciesExactly | src/core/network/priority_scheduler.cpp:8-41 | what each drop policy does at the limit: turn the packet away, or drop the earliest packet of its channel and level (that is no key frame) and append; below the limit everything is queued |
| SchedulerLog.TakenHasSameFields | src/core/network/priority_scheduler.cpp:55-76 | a packet is looked for at its own priority, and the first with the same eight fields is taken |
| PriorityScheduler.PriorityScheduler.Enqueue | src/core/network/priority_scheduler.cpp:8-41 | the six queues keep representing the arrival log, which changes by the admission rule; status, drop count and pressure are as that rule says |
| PriorityScheduler.PriorityScheduler.NextPacket | src/core/network/priority_scheduler.cpp:43-53 | takes exactly one packet, the one that precedes all others: smallest priority value, then earliest |
| PriorityScheduler.PriorityScheduler.TakePacket | src/core/network/priority_scheduler.cpp:55-76 | takes the first packet with the wanted identity at its level, or changes nothing |
| PriorityScheduler.PriorityScheduler.DrainKey | src/core/network/priority_scheduler.cpp:102-110 | removes exactly one channel's packets and keeps the order of the others |
| PriorityScheduler.PriorityScheduler.QueuedCount | src/core/network/priority_scheduler.cpp:91-100 | counts the channel's arrivals over all levels |
| PriorityScheduler.PriorityScheduler.ComputePressure | src/core/network/priority_scheduler.cpp:156-169 | pressure is the one of the channel's arrival count |
| PriorityScheduler.PriorityScheduler.Drop | src/core/network/priority_scheduler.cpp:128-154 | drops the earliest victim of a policy at its level, if there is one |
| PriorityScheduler.FirstInLevel | src/core/network/priority_scheduler.cpp:43-76 | the first match inside a level's queue is the first match in the arrival log |
| PriorityScheduler.DrainAgrees | src/core/network/priority_scheduler.cpp:102-110 | filtering every queue is filtering the log |
| PriorityScheduler.PressureLevels | src/core/network/priority_scheduler.cpp:156-169 | congested exactly at the limit or above, building below it, healthy exactly when empty |
| ChannelDefaults.DefaultsBoundEveryChannel | src/core/network/channel_defaults.cpp:119-171 | over any run with default options a channel holds at most 1024 packets, and a video-only channel at most 2 |
| ChannelDefaults.DefaultsKeepKeyFrames | src/core/network/channel_defaults.cpp:119-171 | over any run with default options every key frame is still queued at the end or was taken out by a flush or a drain |
| ChannelDefaults.OfferKeepsKeyFrames | src/core/network/channel_defaults.cpp:119-171 | one enqueue with default options keeps all queued key frames, in order |
| ChannelDefaults.StepKeepsKeyFrame | src/core/network/channel_defaults.cpp:119-171 | one operation loses no key frame that it does not hand over |
| ChannelDefaults.DefaultsByType | src/core/network/channel_defaults.cpp:119-171 | priority, drop policy and limit for every packet type, from the wire values of the types |
| ChannelRegistry.ChannelRegistry.RegisterSpec | src/core/network/channel_registry.cpp:23-42 | refuses channel id 0 and duplicates, otherwise adds an unbound entry |
| ChannelRegistry.ChannelRegistry.Bind | src/core/network/channel_registry.cpp:44-64 | refuses an unknown key and a missing channel; otherwise the channel is bound, not ready, and the ready flag is right exactly when it was off before |
| ChannelRegistry.ChannelRegistry.Unbind | src/core/network/channel_registry.cpp:66-77 | drops the channel and clears both flags |
| ChannelRegistry.ChannelRegistry.MarkReady | src/core/network/channel_registry.cpp:79-99 | succeeds exactly for a bound, open channel |
| ChannelRegistry.ChannelRegistry.MarkDown | src/core/network/channel_registry.cpp:101-129 | degraded or failed, and not ready |
| ChannelRegistry.ChannelRegistry.UpdatePressure | src/core/network/channel_registry.cpp:131-142 | changes only the pressure of a known channel |
| ChannelRegistry.ReadyFlagIsRightExactlyWhen | src/core/network/channel_registry.cpp:44-148 | in every reachable registry the ready flag agrees with isReady exactly when the channel is not one bound again while ready |
| ChannelRegistry.AcceptedPacketIsBound | src/core/network/channel_registry.cpp:167-196 | a packet that validates goes to a ready channel that is bound under its own key |
| ChannelRegistry.PassesExactly | src/core/network/channel_registry.cpp:167-196 | a packet passes if and only if its channel type, packet type and kind are negotiated and its channel is known, admits the type and is ready; each other answer if and only if its cause is the first |
| NetworkManager.NetworkManager.RegisterSpec | src/core/network/network_manager.cpp:53-56 | refuses channel id 0 and duplicates; a new channel is unready and empty, the other entries stay, and the invariant holds |
| NetworkManager.NetworkManager.BindChannel | src/core/network/network_manager.cpp:83-98 | refuses a missing or unknown channel; otherwise the bound channel is the router's, is not ready, and the invariant holds |
| NetworkManager.NetworkManager.MarkReady | src/core/network/network_manager.cpp:100-103 | succeeds exactly for a bound, open channel, which then is ready |
| NetworkManager.NetworkManager.MarkDegraded | src/core/network/network_manager.cpp:105-108 | succeeds exactly for a known channel, which is then degraded; never ready afterwards |
| NetworkManager.NetworkManager.RebindChannel | src/core/network/network_manager.cpp:110-125 | binds any known channel; it is ready afterwards exactly when that succeeded and the channel is open |
| NetworkManager.NetworkManager.Enqueue | src/core/network/network_manager.cpp:146-159 | an invalid packet changes nothing; a valid one is admitted by its default options, the queue bounds and cached pressure hold, no key frame is evicted, and a flush of an accepted packet takes that very arrival exactly when nothing else queued passes for it |
| NetworkManager.NetworkManager.FlushNext | src/core/network/network_manager.cpp:161-171 | sends the next packet, one of the smallest default priority of all queued, on its own channel; never reports an unknown channel |
| NetworkManager.NetworkManager.FlushPacket | src/core/network/network_manager.cpp:173-188 | takes exactly the packet the two-step search finds and hands it to its channel; never reports an unknown channel |
| NetworkManager.NetworkManager.SendTaken | src/core/network/network_manager.cpp:161-188 | after the send the cached pressure again equals the queue's count |
| NetworkManager.AdmittedIsFound | src/core/network/network_manager.cpp:146-188 | after an accepted enqueue a flush of the packet always finds one to send, and takes the packet's own arrival if and only if no other packet that stays queued passes for it |
| NetworkManager.FlushSendsTheTwin | src/core/network/priority_scheduler.cpp:55-76 | for every clipboard event of normal priority and every other payload: after both are queued, the flush of the second takes the first |
| NetworkManager.AdmitStaysCoherent | src/core/network/network_manager.cpp:146-159 | admission and the pressure update keep cached counts and bindings coherent |
| NetworkManager.RemoveStaysCoherent | src/core/network/network_manager.cpp:161-188 | removal and the pressure update keep them coherent |
| NetworkManager.AdmitStaysBounded | src/core/network/network_manager.cpp:146-159 | admission keeps every channel within 1024 packets and a channel whose allowlist is video only within 2 |
| NetworkManager.RemoveStaysBounded | src/core/network/network_manager.cpp:161-188 | so does removal |
| NetworkManager.AcceptedIsAllowed | src/core/network/channel_registry.cpp:167-196 | a packet accepted on a video-only channel is video |
| NetworkManager.NextIsMostUrgent | src/core/network/network_manager.cpp:161-171 | the packet sent has the smallest default priority of all queued, so none that is not critical goes before a heartbeat |
| NetworkManager.DefaultsAreInRange | src/core/network/channel_defaults.cpp:119-171 | default priorities are in range, and critical exactly for channel set-up, heartbeats and exchanges |
| RequestTracker.RequestTracker.NextMessageId | src/core/network/request_tracker.cpp:13-19 | ids are never zero and wrap around |
| RequestTracker.RequestTracker.Track | src/core/network/request_tracker.cpp:21-47 | accepts exactly a trackable request with a fresh id, with its deadline |
| RequestTracker.RequestTracker.Complete | src/core/network/request_tracker.cpp:49-66 | calls the one matching handler; the request ends exactly on a terminal response |
| RequestTracker.RequestTracker.CancelByChannel | src/core/network/request_tracker.cpp:68-93 | exactly the channel's requests get one synthetic error each, in id order, and are gone |
| RequestTracker.RequestTracker.Expire | src/core/network/request_tracker.cpp:95-118 | exactly the requests with a later deadline remain; each other gets one timeout |
| RequestTracker.RequestTracker.FinishAll | src/core/network/request_tracker.cpp:76-118 | one synthetic terminal call per selected request, in id order, to its own handler |
| RequestTracker.TrackAccounted | src/core/network/request_tracker.cpp:21-47 | a new request is pending and has had no terminal call |
| RequestTracker.CallAccounted | src/core/network/request_tracker.cpp:49-118 | a handler call keeps the accounts: a terminal one ends its request, and nothing follows it |
| RequestTracker.EveryRequestEndsOnce | src/core/network/request_tracker.cpp:21-118 | in every state tracked = terminal handler calls + pending; each request has at most one terminal call, none after it, and exactly one unless it is pending |
| RequestTracker.ValidatedPacketsAreTrackable | src/core/network/request_tracker.cpp:21-35 | which validated packets can be tracked, exactly |
| RequestTracker.KindsExactly | src/core/network/request_tracker.cpp:150-162 | which kinds end a request and which packets can be waited for |
| RequestTracker.DueExactly | src/core/network/request_tracker.cpp:95-118 | a request is due exactly when its timeout in milliseconds has passed since its timestamp in microseconds |
| RequestTracker.SyntheticExactly | src/core/network/request_tracker.cpp:164-182 | every field of the synthetic answer: an error with the given status that names the request and repeats its version, session, channel, type and priority |
| RequestTracker.SyntheticIsValid | src/core/network/request_tracker.cpp:164-182 | it is a valid packet whenever the request is |
| RemoteReads.RemoteReads.Dispatch | src/modules/clipboard/clipboard_module_remote_read.cpp:41-105 | a request that cannot be sent is completed on the spot by one call and leaves nothing pending |
| RemoteReads.RemoteReads.HandleCancel | src/modules/clipboard/clipboard_module_remote_read.cpp:299-318 | a cancel ends the request it names by one call to that request's handler, or is a miss and changes nothing |
| RemoteReads.RequestExactly | src/modules/clipboard/clipboard_module_remote_read.cpp:66-73 | a read request can always be tracked and carries its own id, the fallback timeout where none is given, and the template's channel and payload |
| RemoteReads.OwnAnswersExactly | src/modules/clipboard/clipboard_module_remote_read.cpp:97-318 | both answers the clipboard makes itself are errors that name the request they end |
| NetworkRouter.NetworkRouter.RegisterChannel | src/core/network/network_router.cpp:9-16 | refuses a missing channel; otherwise the channel replaces the one for its key |
| NetworkRouter.NetworkRouter.Send | src/core/network/network_router.cpp:23-33 | unknown, closed or the channel's own answer; only an open matching channel is touched |
| NetworkRouter.NetworkRouter.Subscribe | src/core/network/network_router.cpp:35-43 | tokens are fresh and never zero; no handler, no token |
| NetworkRouter.NetworkRouter.Unsubscribe | src/core/network/network_router.cpp:45-48 | removes that token only |
| NetworkRouter.NetworkRouter.SubmitIncoming | src/core/network/network_router.cpp:50-63 | calls every matching handler once per matching subscription, in token order |
| NetworkRouter.MatchesExactly | src/core/network/network_router.cpp:65-77 | a route admits a packet if and only if the types agree and so does every field the route names |
| ModuleIngress.ModuleIngressRegistry.UnregisterModule | src/core/module/module_ingress.cpp:47-60 | all the module's subscriptions go and no other; tokens and manifests keep agreeing |
| ModuleIngress.ModuleIngressRegistry.RegisterManifest | src/core/module/module_ingress.cpp:11-45 | one live subscription per declared channel and consumed packet type, all with fresh tokens, replacing the old ones; other clients untouched |
| ModuleIngress.ModuleIngressRegistry.SubscribeBinding | src/core/module/module_ingress.cpp:22-39 | one binding adds one subscription per packet type, in order |
| ModuleIngress.RegisterAgrees | src/core/module/module_ingress.cpp:11-45 | the new tokens are disjoint from everyone else's and the table agrees with the manifests |
| ModuleIngress.UnregisterAgrees | src/core/module/module_ingress.cpp:47-60 | removal keeps the agreement and every other subscription |
| ModuleIngress.ConsumersHaveRoutes | src/core/module/module_host.cpp:48-55 | a manifest has routes exactly when it consumes packets |
| ModuleIngress.DeliversAsDeclared | src/core/network/network_router.cpp:50-77 | an incoming packet reaches a registered module exactly as often as its manifest declares it, an unregistered one never |
| ModuleIngress.AtMostByRank | src/core/module/module_compatibility.cpp:15-24 | versions are ordered as the triples major, minor, patch are |
| ModuleIngress.MatchesAreDeclared | src/core/module/module_ingress.cpp:22-39 | a module's routes match a packet as often as its manifest declares the packet's channel and type |
| ModuleHost.EvaluatePeerVersions | src/core/module/module_host.cpp:90-131 | blocked exactly when peers reported versions and some expected peer has no compatible one; otherwise one accepted version per expectation |
| ModuleHost.ModuleHost.constructor | src/core/module/module_host.cpp:197-202 | a host starts empty and valid |
| ModuleHost.ModuleHost.AddModule | src/core/module/module_host.cpp:204-225 | adds exactly a new, named module that suits role and platform and attaches; attach is asked only then |
| ModuleHost.ModuleHost.Authorize | src/core/module/module_host.cpp:242-310 | the decision and its reason are those of the preflight, whose exact meaning is PreflightExactly |
| ModuleHost.ModuleHost.PreflightAll | src/core/module/module_host.cpp:234-317 | one decision per module in order; failed exactly when one is refused |
| ModuleHost.ModuleHost.StartOne | src/core/module/module_host.cpp:340-367 | start, then ingress; a module whose ingress fails is stopped again; the report says which |
| ModuleHost.ModuleHost.StartBatch | src/core/module/module_host.cpp:329-403 | runs the batch to the end or to the first failure and its rollback |
| ModuleHost.ModuleHost.RollBack | src/core/module/module_host.cpp:371-395 | started modules are unregistered and stopped in reverse order and every report is refused |
| ModuleHost.ModuleHost.StartAllowedModules | src/core/module/module_host.cpp:232-403 | for every set of answers, partial or not: a module with a required module not hosted, a required channel not ready, a blocked peer or refused by policy is never asked to start and is refused; one such module in a batch that may not be partial changes nothing; otherwise every module is asked, or up to the first that fails; a batch that may not be partial, on a host with nothing running, is all or nothing; other subscriptions and channels untouched |
| ModuleHost.ModuleHost.PreflightAndStart | src/core/module/module_host.cpp:232-403 | preflight, then either refusal of every module or the start loop, as the plan says |
| ModuleHost.ModuleHost.StopInReverse | src/core/module/module_host.cpp:372-375 | each named module is unregistered and stopped once, last first |
| ModuleHost.ModuleHost.StopAll | src/core/module/module_host.cpp:484-494 | every module is stopped once in reverse order and no ingress is left |
| ModuleHost.ModuleHost.ReplayRunningModuleIngress | src/core/module/module_host.cpp:428-459 | exactly the running consumers on affected channels are subscribed afresh, with new tokens for all their routes, each reported; every other module keeps the tokens it had |
| ModuleHost.RunningModuleGetsDeclaredPackets | src/core/module/module_host.cpp:351-494 | in every valid host a running module gets each packet exactly as often as its manifest declares the packet's channel and type |
| ModuleHost.StopsAreReversed | src/core/module/module_host.cpp:372-375 | the rollback's calls are the started modules read backwards, each once |
| ModuleHost.RolledBackUndoesStarts | src/core/module/module_host.cpp:371-395 | after a rollback nothing runs, exactly the started modules were unregistered, and the calls are starts, the failure, and reversed stops |
| ModuleHost.AllOrNothing | src/core/module/module_host.cpp:232-403 | a non-partial batch on a host with nothing running ends with everything started, running and subscribed, or with nothing running and each started module stopped once in reverse order; then no ingress is left if and only if all that was registered before belonged to modules the batch had started; the reports say which |
| ModuleHost.NoIngressLeftExactlyWhenNoneBefore | src/core/module/module_host.cpp:319-396 | for fixed preflight decisions, every failing outcome leaves no ingress if and only if nothing was registered before |
| ModuleHost.FailingBatch | src/core/module/module_host.cpp:319-396 | for every plan with a module there are answers with which no module starts and all that was registered stays |
| ModuleHost.PartialStartHonoursDependenciesExactlyWhen | src/core/module/module_host.cpp:248-264 | whatever the modules answer, started modules have their dependencies started if and only if no module that may start requires another |
| ModuleHost.PartialStart | src/core/module/module_host.cpp:248-264 | a run: a module starts although the one it requires did not |
| ModuleHost.LeftoverIngress | src/core/module/module_host.cpp:342-396 | a run on a new host: start, failed restart, failed batch; nothing runs before or after the last batch, and the module is still subscribed |
| ModuleHost.PreflightExactly | src/core/module/module_host.cpp:242-310 | a module is allowed if and only if nothing stands in its way: no required module missing from the host, no required channel down, no expected peer without a compatible version, no feature bit unlicensed or disabled; and the reason names the first of them |
| ModuleHost.ChannelsExactly | src/core/module/module_host.cpp:266-284 | a module is held up by its channels if and only if one it requires is not ready |
| ModuleHost.PlanIsPlain | src/core/module/module_host.cpp:232-317 | the plan of a batch allows exactly the modules with nothing in their way |
| ModuleHost.AdmitsExactly | src/core/module/module_compatibility.cpp:34-73 | a peer is compatible if and only if both ids are given and its version lies in the first range declared for it |
| ModuleHost.PeersBlockExactly | src/core/module/module_host.cpp:90-131 | peers block a module if and only if some were reported and none of them is a compatible version of one it expects |
| ModuleHost.PolicyExactly | src/core/policy/policy_engine.cpp:27-47 | allowed if and only if every feature bit is licensed and enabled; otherwise which of the two fails |
| ModuleHost.SuitsExactly | src/core/module/module_host.cpp:13-46 | a module suits a role or a platform if and only if it names none or names that one |
| ModuleHost.ReplayedExactly | src/core/module/module_host.cpp:428-459 | a module is replayed if and only if it runs, consumes packets and uses an affected channel; all are when none is named |
| ModuleHost.OutcomeIsPlain | src/core/module/module_host.cpp:232-403 | what a batch does, told from the modules that are hindered and those whose start succeeds: a hindered module is never asked and is refused; one such module in a batch that may not be partial changes nothing; otherwise modules are asked in order, all of them or up to the first failure |
| ModuleComposer.WalkGoesBack | src/core/module/module_factory.cpp:141-160 | in a sorted list a walk along dependencies only moves backwards |
| ModuleComposer.SortedHasNoCycle | src/core/module/module_factory.cpp:141-163 | a graph that can be put in dependency order has no cycle |
| ModuleComposer.GreyClosesCycle | src/core/module/module_factory.cpp:145-148 | meeting a grey node means a real cycle through it |
| ModuleComposer.FinishedInOrder | src/core/module/module_factory.cpp:150-160 | a node finished after its dependencies keeps dependencies first |
| ModuleComposer.DependencyOrder.Visit | src/core/module/module_factory.cpp:141-160 | the visit blackens its node or a cycle is reported, keeps dependencies first, and ends because white nodes run out |
| ModuleComposer.PermutationLength | src/core/module/module_factory.cpp:162-165 | an order of distinct nodes covering all has the full length, so the sorted lists are always taken |
| ModuleComposer.SortByDependency | src/core/module/module_factory.cpp:133-178 | every module once, beside its manifest; a cycle is reported exactly when there is one, and otherwise dependencies come first |
| ModuleComposer.ResolveRequests | src/core/module/module_factory.cpp:75-93 | which requests resolve, and which are reported missing |
| ModuleComposer.AppendVersionFailures | src/core/module/module_factory.cpp:38-58 | appends exactly one failure per constraint that targets the selection and is violated, in order |
| ModuleComposer.Violations | src/core/module/module_factory.cpp:38-58 | a failure is listed exactly when the constraint is among the given ones and the selection violates it |
| ModuleComposer.CheckVersions | src/core/module/module_factory.cpp:95-106 | a module is blocked exactly when some pending selection of it violates a constraint; the failures are exactly the violations of the first such selection |
| ModuleComposer.FailuresGrow | src/core/module/module_factory.cpp:95-106 | a further selection adds its violations exactly when its module is not blocked yet |
| ModuleComposer.CreateSelected | src/core/module/module_factory.cpp:108-124 | for each unblocked module the first selection that can be created, once, with manifest and module aligned |
| ModuleComposer.CheckDependencies | src/core/module/module_factory.cpp:126-131 | exactly the required modules that were not selected are reported |
| ModuleComposer.Compose | src/core/module/module_factory.cpp:68-179 | selection, failures and order together, in the terms that CompositionLaws spells out from factories, requests and constraints alone |
| ModuleComposer.OkExactly | src/core/module/module_factory.cpp:68-179 | ok if and only if every request resolves, fits its versions and is created, all dependencies are selected and none is circular; then every requested module is there in dependency order |
| CompositionLaws.ResolvesExactly | src/core/module/module_factory.cpp:75-93 | a request is answered by the first factory that supports it, if its module has an id |
| CompositionLaws.PendingExactly | src/core/module/module_factory.cpp:75-93 | the pending selections are exactly the requests that are answered, with their factory |
| CompositionLaws.ViolatesExactly | src/core/module/module_factory.cpp:30-58 | a selection violates exactly the constraints that name the request or the module, and whose bounds its version is not within |
| CompositionLaws.BlockedExactly | src/core/module/module_factory.cpp:95-106 | a module is blocked if and only if some request for it is answered outside the bounds of a constraint that names the request or the module |
| CompositionLaws.VersionFailuresExactly | src/core/module/module_factory.cpp:38-106 | every failure listed is such a constraint, and none is listed if and only if there is none |
| CompositionLaws.OnlyRelevantConstraintsMatter | src/core/module/module_factory.cpp:30-179 | constraints that name neither a request nor the module that answers one can be dropped or added without changing what the composition may be |
| CompositionLaws.OkInPlainTerms | src/core/module/module_factory.cpp:68-179 | an ok composition answers every request within the bounds of every constraint that names the request or its module; everything in it answers a request, could be created, and stands behind all it requires |
| CompositionLaws.OkExactlyInPlainTerms | src/core/module/module_factory.cpp:68-179 | ok if and only if every request is answered, no constraint is broken, the first answer for each module can be created, and the first answers require only each other and can be put on levels, each above what it requires |
| LargeDataScheduler.LargeDataWindow.Reserve | src/modules/clipboard/clipboard_large_data_scheduler.cpp:133-150 | refused exactly when the window is full or the bytes do not fit; otherwise counted |
| LargeDataScheduler.LargeDataWindow.Release | src/modules/clipboard/clipboard_large_data_scheduler.cpp:152-158 | gives back no more than is in flight and records when it had to clamp |
| LargeDataScheduler.LargeDataWindow.SetMaxInFlightBytes | src/modules/clipboard/clipboard_large_data_scheduler.cpp:127-131 | changes the maximum only |
| LargeDataScheduler.ScheduleExactly | src/modules/clipboard/clipboard_large_data_scheduler.cpp:9-111 | a bulk response takes the large-data channel if and only if that channel takes it and there is room; without room it waits, and a channel that does not take it leaves the bounded fallback |
| BulkResponses.SumWithout | src/modules/clipboard/clipboard_modules.cpp:535-594 | taking one reservation out lowers the sum by its bytes |
| BulkResponses.BulkResponder.SendFileRangeResponse | src/modules/clipboard/clipboard_modules.cpp:646-735 | in-flight bytes stay equal to the sum of reservations; a reserve the schedule allowed never fails; credit is kept exactly for answers that were sent |
| BulkResponses.BulkResponder.HandleAck | src/modules/clipboard/clipboard_modules.cpp:535-580 | the first ack returns the credit, a duplicate changes nothing but a counter; the clamp never fires |
| BulkResponses.BulkResponder.ReleaseAll | src/modules/clipboard/clipboard_modules.cpp:582-594 | every outstanding credit is returned: released equals reserved |
| BulkResponses.ScheduledFits | src/modules/clipboard/clipboard_large_data_scheduler.cpp:16-25 | what the schedule lets through fits the window |
| FileRangeTransfer.DrainRemoteFileRange | src/modules/clipboard/clipboard_transfer.cpp:10-106 | for any honest reader the sink holds a prefix of the rest of the file within the cap on every exit; with an accepting sink it succeeds exactly when there is no cap or the rest fits; any reader and any sink: requests go out in turn as long as replies bring bytes and the sink takes them, and the last reply or the sink's verdict on it decides status, bytes and chunks |
| FileRangeTransfer.ReadRemoteFileRangeWindow | src/modules/clipboard/clipboard_transfer.cpp:108-175 | for any honest reader and non-zero chunk size the result is the plain slice of the file with the right end flag; any reader is asked in turn for what is still missing, at most one read per byte, and its last reply decides: a failure is passed on, a malformed reply is a protocol error |
| FileRangeTransfer.FullReaderIsHonest | src/modules/clipboard/clipboard_transfer.cpp:10-175 | honest readers exist for every file |
| DragSession.ClipboardPeer.ResetSessions | src/modules/clipboard/clipboard_modules.cpp:213-232 | stop, detach and pause forget both sessions |
| DragSession.ClipboardPeer.AnnounceLocalBundle | src/modules/clipboard/clipboard_modules.cpp:399-455 | when a list is sent, its bundle becomes the local one and the local session ends |
| DragSession.ClipboardPeer.SendRemoteDragStart | src/modules/clipboard/clipboard_module_drag.cpp:39-59 | sends only a start naming the announced bundle; the session opens only if it was sent |
| DragSession.ClipboardPeer.SendRemoteDragMove | src/modules/clipboard/clipboard_module_drag.cpp:61-81 | sends only for the open, non-zero session |
| DragSession.ClipboardPeer.SendRemoteDragDrop | src/modules/clipboard/clipboard_module_drag.cpp:83-104 | the same, and closes the session if sent |
| DragSession.ClipboardPeer.SendRemoteDragCancel | src/modules/clipboard/clipboard_module_drag.cpp:106-127 | the same for a cancel |
| DragSession.ClipboardPeer.HandlePacket | src/modules/clipboard/clipboard_modules.cpp:245-300 | dispatch of a delivered format list or drag message to its handler; anything else is outside the model |
| DragSession.ClipboardPeer.HandleFormatList | src/modules/clipboard/clipboard_modules.cpp:737-791 | a stored list replaces the offer and ends the session, even if it then cannot be published |
| DragSession.ClipboardPeer.HandleDragStart | src/modules/clipboard/clipboard_module_drag.cpp:139-165 | the sink is asked only for the stored offer; the session opens only if it accepts |
| DragSession.ClipboardPeer.HandleDragMove | src/modules/clipboard/clipboard_module_drag.cpp:167-191 | only for the open session; changes nothing |
| DragSession.ClipboardPeer.HandleDragDrop | src/modules/clipboard/clipboard_module_drag.cpp:193-220 | closes the session only if the sink accepts |
| DragSession.ClipboardPeer.HandleDragCancel | src/modules/clipboard/clipboard_module_drag.cpp:222-244 | checks only the drag permission; closes the session only if the sink accepts |
| DragSession.SendKeeps | src/modules/clipboard/clipboard_module_drag.cpp:39-127 | every send keeps the log disciplined and the fields in step with it |
| DragSession.ReceiveKeeps | src/modules/clipboard/clipboard_module_drag.cpp:139-244 | every delivery does |
| DragSession.AnnounceKeeps | src/modules/clipboard/clipboard_modules.cpp:399-455 | every announcement does |
| DragSession.ResetKeeps | src/modules/clipboard/clipboard_modules.cpp:184-232 | every stop or pause does |
| DragSession.EveryRunIsConsistent | src/modules/clipboard/clipboard_module_drag.cpp:39-244 | in every run of two peers joined by first-in first-out channels both logs are disciplined, and what one sent is what the other handled followed by what is under way |
| DragSession.SinkCallsFollowAcceptedStart | src/modules/clipboard/clipboard_module_drag.cpp:139-244 | in every run and at either peer, a move, drop or cancel told to the sink follows an accepted start of that session with no successful end, newer start, replaced offer or reset between |
| DragSession.SentMessagesFollowStart | src/modules/clipboard/clipboard_module_drag.cpp:39-127 | in every run and at either peer, a sent move, drop or cancel follows a sent start of that session with no end between |
| DragSession.SinkStartsNameStoredOffer | src/modules/clipboard/clipboard_module_drag.cpp:139-165 | in every run and at either peer, a start told to the sink names the stored offer still in force and was sent by the other peer |
| DragSession.SinkSession | src/modules/clipboard/clipboard_module_drag.cpp:139-244 | which session is open at the sink after one more event: the one just accepted, or the one before unless the event ends it |
| DragSession.StartReplacesOpenSessionExactlyWhen | src/modules/clipboard/clipboard_module_drag.cpp:157-164 | a delivered start takes over from an open session, with no cancel, exactly when a session is open and the start is decodable, allowed, for the stored offer and accepted |
| DragSession.OverlappingDrags | src/modules/clipboard/clipboard_module_drag.cpp:157-164 | a run of two peers in which that happens |
| DragSession.SenderSession | src/modules/clipboard/clipboard_module_drag.cpp:39-127 | which session is open at the sender after one more event |
| DragSession.OfferInForce | src/modules/clipboard/clipboard_modules.cpp:737-791 | which offer is in force after one more event |
| DragSession.SentExactly | src/modules/clipboard/clipboard_module_drag.cpp:20-127 | a drag message goes out if and only if the peer runs, may announce and drag, the channel takes it, and it names the announced bundle (a start) or the session open at the sender |
| DragSession.AnnouncedExactly | src/modules/clipboard/clipboard_modules.cpp:399-455 | a list goes out if and only if policy, formats, registry and channel let it, and names this session unless it named another |
| DragSession.SinkToldExactly | src/modules/clipboard/clipboard_module_drag.cpp:129-244 | the sink is told of a message if and only if the peer runs with a sink, policy allows that message, and it names the offer in force (a start) or the session open at the sink |
| DragSession.ListStoredExactly | src/modules/clipboard/clipboard_modules.cpp:737-791 | a delivered list is stored if and only if it has an identity, is allowed, is not this session's own and is kept; it is withdrawn if it then cannot be published |
| CapabilityCodec.Encode | src/core/protocol/capability_negotiation.cpp:213-236 | the appended bytes are the payload layout |
| CapabilityCodec.WriteEnumList | src/core/protocol/capability_negotiation.cpp:65-70 | appends the count and then each value |
| CapabilityCodec.FieldU16 | src/core/protocol/capability_negotiation.cpp:34-38 | an unguarded read, allowed in bounds only; it gives the big-endian value |
| CapabilityCodec.FieldU32 | src/core/protocol/capability_negotiation.cpp:40-46 | the same for 32 bits |
| CapabilityCodec.FieldU64 | src/core/protocol/capability_negotiation.cpp:48-54 | the same for 64 bits |
| CapabilityCodec.ReadEnumList | src/core/protocol/capability_negotiation.cpp:73-103 | the loop reads the list the layout describes and refuses the rest; its unguarded reads are shown to stay in bounds |
| CapabilityCodec.DecodePayload | src/core/protocol/capability_negotiation.cpp:238-301 | the stepwise decoder is the specification, for all bytes; its unguarded reads are shown to stay in bounds |
| CapabilityCodec.DecodeEncode | src/core/protocol/capability_negotiation.cpp:213-301 | decode(encode(c)) = c exactly for values whose lists and total size fit the decoder |
| CapabilityCodec.EncodeDecode | src/core/protocol/capability_negotiation.cpp:213-301 | an accepted payload re-encodes to itself exactly when its unused flag bits are zero |
| CapabilityCodec.RecordLayout | src/core/protocol/capability_negotiation.cpp:213-236 | at which byte every field of the payload stands, as a big-endian number, and that the three lists follow |
| CapabilityCodec.ListLayout | src/core/protocol/capability_negotiation.cpp:65-70 | a list is its count and then each value, two bytes each |
| CapabilityCodec.RejectedBecause | src/core/protocol/capability_negotiation.cpp:238-301 | which payloads are too large, incomplete, of the wrong magic or of another version |
| CapabilityCodec.AcceptedExactly | src/core/protocol/capability_negotiation.cpp:238-301 | bytes decode to a value if and only if, unused flag bits aside, they are its payload and the value fits the decoder |
| CapabilityNegotiation.IntersectValues | src/core/protocol/capability_negotiation.cpp:112-120 | the loop computes the common values |
| CapabilityNegotiation.AddUnsupportedValues | src/core/protocol/capability_negotiation.cpp:137-148 | appends one denial per offered value the other side lacks |
| CapabilityNegotiation.CommonIsIntersection | src/core/protocol/capability_negotiation.cpp:112-120 | duplicate-free, and exactly the values on both sides |
| CapabilityNegotiation.AndIsBitwise | src/core/protocol/capability_negotiation.cpp:303-330 | the feature mask is the bitwise conjunction, digit by digit |
| CapabilityNegotiation.NegotiationIsSymmetric | src/core/protocol/capability_negotiation.cpp:303-379 | both sides reach the same verdict and, for one major version, the same minor version, features, limits, tunnel and vocabularies as sets |
| CapabilityNegotiation.CompatibleExactlyWhen | src/core/protocol/capability_negotiation.cpp:150-379 | compatible if and only if majors match, vocabularies meet, sizes are non-zero and timeout ranges overlap; the agreed default timeout lies in the agreed range |
| CapabilityNegotiation.AgreedIsWhatBothAllow | src/core/protocol/capability_negotiation.cpp:112-379 | peers of one major version agree on exactly what both allow: every feature bit, vocabulary value, size, count and timeout |
| CapabilityNegotiation.NothingDeniedMeansShared | src/core/protocol/capability_negotiation.cpp:122-379 | nothing is denied if and only if the offers are compatible and share every feature, the tunnel and every vocabulary value |
| CapabilityNegotiation.DefaultTimeoutIsNearest | src/core/protocol/capability_negotiation.cpp:150-168 | the agreed default timeout is the one in the agreed range nearest to the smaller of both defaults |
| CapabilityNegotiation.DifferentMajors | src/core/protocol/capability_negotiation.cpp:303-320 | peers of different major versions agree on nothing, and one denial says so |
| CapabilityNegotiation.DenialsExactly | src/core/protocol/capability_negotiation.cpp:122-379 | which denials there are, each if and only if its cause is: a feature bit, a word or the tunnel on one side only, a vocabulary without a common word, limits without room |
| FileNames.SanitizeDisplayName | src/modules/clipboard/clipboard_transfer_file_list.cpp:125-151 | the in-place loops compute the display-name specification |
| FileNames.DropTrailingEdges | src/modules/clipboard/clipboard_transfer_file_list.cpp:136-139 | drops spaces and dots from the end |
| FileNames.MaskLeadingEdges | src/modules/clipboard/clipboard_transfer_file_list.cpp:141-146 | masks spaces and dots at the start |
| FileNames.DisplayNameIsClean | src/modules/clipboard/clipboard_transfer_file_list.cpp:125-151 | the result is always clean, and clean names are exactly the fixed points: idempotent |
| FileNames.SanitizeRelativePath | src/modules/clipboard/clipboard_transfer_file_list.cpp:153-181 | the one-pass loop computes the split-and-flush specification |
| FileNames.RelativePathIsNormal | src/modules/clipboard/clipboard_transfer_file_list.cpp:153-181 | the result is always normal, and normal paths are exactly the fixed points: idempotent |
| FileNames.NormalPathIsSafe | src/modules/clipboard/clipboard_transfer_file_list.cpp:153-181 | a normal path has only clean pieces, none of them empty, . or .. |
| FileNameLaws.DisplayNameExactly | src/modules/clipboard/clipboard_transfer_file_list.cpp:125-151 | every name, byte by byte: trailing spaces and dots go, harmful bytes and leading spaces and dots become underscores, the rest stays, and an empty rest becomes the placeholder |
| FileNameLaws.SplitExactly | src/modules/clipboard/clipboard_transfer_file_list.cpp:153-181 | the pieces hold no separator, and joining them with slashes gives the path with its backslashes turned |
| FileNameLaws.RelativePathExactly | src/modules/clipboard/clipboard_transfer_file_list.cpp:153-181 | every path, piece by piece: the sanitised pieces that survive, in order, joined by slashes; the display name of the whole when none does |
| FileNameLaws.DudsChangeNothing | src/modules/clipboard/clipboard_transfer_file_list.cpp:157-168 | an empty piece, . or .. inserted anywhere inside a path changes nothing when some piece survives |
| FileNameLaws.DudsAtTheEnds | src/modules/clipboard/clipboard_transfer_file_list.cpp:157-181 | nor does one in front of a path or behind it |
| FileListCodec.Encode | src/modules/clipboard/clipboard_transfer_file_list.cpp:183-225 | the appended bytes are the list layout |
| FileListCodec.BinaryReader.ReadU16 | src/modules/clipboard/clipboard_transfer_file_list.cpp:53-61 | reads two little-endian bytes in bounds and advances, or fails and stays |
| FileListCodec.BinaryReader.ReadU32 | src/modules/clipboard/clipboard_transfer_file_list.cpp:63-72 | the same for four |
| FileListCodec.BinaryReader.ReadU64 | src/modules/clipboard/clipboard_transfer_file_list.cpp:74-83 | the same for eight |
| FileListCodec.BinaryReader.ReadU8 | src/modules/clipboard/clipboard_transfer_file_list.cpp:45-51 | the same for one |
| FileListCodec.BinaryReader.ReadString | src/modules/clipboard/clipboard_transfer_file_list.cpp:85-97 | reads a length and that many bytes in bounds, or fails and stands behind the length if that fitted |
| FileListCodec.BinaryReader.ReadEntry | src/modules/clipboard/clipboard_transfer_file_list.cpp:254-296 | one entry is parsed, sanitised and the offset advanced as specified |
| FileListCodec.Decode | src/modules/clipboard/clipboard_transfer_file_list.cpp:227-307 | the reader loop is the specification, for all bytes and limits |
| FileListLaws.DecodeEncode | src/modules/clipboard/clipboard_transfer_file_list.cpp:183-307 | decoding an encoded list yields its sanitised normal form exactly when sanitised names, paths and count fit |
| FileListLaws.EncodeNormal | src/modules/clipboard/clipboard_transfer_file_list.cpp:183-225 | encoding the normal form gives the same bytes again |
| FileListLaws.DecodedPathsAreSafe | src/modules/clipboard/clipboard_transfer_file_list.cpp:283-295 | every path in any successfully decoded list has only clean, non-climbing pieces |
| FileListLaws.GetsLittleEndian64 | src/modules/clipboard/clipboard_transfer_file_list.cpp:74-83 | a 64-bit read gives the number in those bytes, least significant first |
| FileListLaws.ListLayout | src/modules/clipboard/clipboard_transfer_file_list.cpp:183-225 | magic, versions, count and then the records, and where each stands |
| FileListLaws.EntryLayout | src/modules/clipboard/clipboard_transfer_file_list.cpp:194-222 | where each field of a record stands, and both names behind their lengths, cut to 65535 bytes |
| FileListLaws.NormalExactly | src/modules/clipboard/clipboard_transfer_file_list.cpp:194-222 | a record carries both names sanitised, and the display name where there is no path |
| FileListLaws.RefusedBecause | src/modules/clipboard/clipboard_transfer_file_list.cpp:227-307 | unsupported exactly for another version, too large exactly for the count, and malformed otherwise |
| FileListLaws.OldListsHaveNoPaths | src/modules/clipboard/clipboard_transfer_file_list.cpp:283-295 | in lists of the first minor version every path is the display name |
| FileListAcceptance.EntryReads | src/modules/clipboard/clipboard_transfer_file_list.cpp:254-296 | a record that stands in the bytes, whoever wrote it, is read with its names sanitised |
| FileListAcceptance.EntryWasRead | src/modules/clipboard/clipboard_transfer_file_list.cpp:254-296 | whatever is read stands in the bytes as a record within the limits |
| FileListAcceptance.AcceptedExactly | src/modules/clipboard/clipboard_transfer_file_list.cpp:227-307 | bytes decode to a list of files if and only if magic, version, count and records stand in them one behind the other up to the end, within the limits, and the files are those records as received |

## Left out

- Sockets, the Qt event loop, the socket group, sessions and the runtime host; a channel is an open flag, an answer and a log of what was sent on it.
- The clipboard payload codec: drag and list messages travel as values, and of its decoder only the checks on identities and actions are kept.
- Counters, message strings and diagnostics other than those a property names; the timeout counter of remote reads, which an expiry raises twice.
- Re-entrancy: handlers are identities, a call is an entry in a log, and a handler is assumed not to call back into the tracker, the router or the host.
- 64-bit message-id counters and window byte totals are assumed not to wrap; the tracker's own counter and its deadlines do wrap as in the code.
- An ack that overtakes the tracking of its reservation: an ack is a later step than the send.
- A large-data window shared by several modules, and lowering its maximum below what is in flight.
- A channel that reports itself as unknown: a channel's own answer is any status but that one.
- Modules whose state changes on their own: a module runs from a successful start to its stop or its next failed start.
- The peer versions passed on to a module's start, and pause and resume notifications, which only walk the running modules in reverse and forward order.
- Object locks, which repeat the tracked-request pattern of remote reads, and the source registry and native endpoints, which are answers.
- Drag coordinates and allowed-action sets, which no decision depends on.
- The module catalog, channel allowlists and format tables, whose claims are finite case checks.
- DragSession.ClipboardPeer.HandlePacket: dispatches format lists and drag messages only, because reads, acks and cancels are modelled with the request tracker and the large-data window.
- NetworkRouter.NetworkRouter.SubmitIncoming: a handler that throws is not modelled.
- ModuleComposer.Compose: version failures are the constraints violated, without their texts.
- RemoteReads.RemoteReads.Dispatch: policy and offer checks are one answer, because their inputs are not part of this model.
- The scheduler's total queue count over all channels, and unregistering a channel from the router, which the manager never does.
