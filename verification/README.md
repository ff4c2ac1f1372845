# lifenet message-delivery engine in Dafny

This project models the message-delivery core of lifenet, an Android mesh
messenger that carries text, SOS and voice traffic between phones over BLE
and Wi-Fi Direct without any infrastructure. The model covers:

- **Fragmentation and reassembly.** `Fragmenter` splits a payload into
  MTU-sized fragments. Each has a 17-byte big-endian header (message id,
  chunk count, chunk index, FEC flag, CRC32). `ForwardErrorCorrection` computes the XOR parity
  chunk and recovers one lost chunk. `Assembler` collects fragments per
  session, recovers a single gap and reassembles the payload. The session
  table (a `LifenetAssembler` class) expires sessions after five minutes.
  `LmtpSegmenter` is the voice transport's segmenter.
- **Duplicate suppression and routing.** `Forwarding` is the LRU seen-cache
  and the TTL decision. `PacketRouter` is the replay guard and TTL-byte
  forwarding. `Routing` is the history-based router that delivers or relays
  envelopes. `PredictiveRouting` marks peers toxic by latency jitter, with
  hysteresis.
- **Mesh tuning.** `MeshStateAnalyzer` keeps the last five telemetry
  samples (peer count, collision rate, noise floor, queue pressure), turns
  their moving average into a 0-100 congestion score (higher is worse,
  weighted 35 collisions, 20 peers, 15 queue pressure, 30 noise) and maps
  the score to a send delay. `AdaptiveMeshController` adjusts epoch and transmit
  power. `AdaptivePowerManager` picks a battery-driven power profile.
  `FrequencyHopping` rotates channels. `GatewayNodeSelector` elects
  gateways between clusters. `ClusterAssignment` derives a node's channel
  from a string hash.
- **Quality of service.** `RuntimeMetrics`, `QoSController`,
  `PriorityMessageQueue` and `DispatchScheduler`.
- **Device state.** `ModeManager` (DAILY/DISASTER with listeners),
  `PrivateMeshIsolation`, `TrustScoreEngine`, `JitterBuffer`, `KeyCache`,
  `RatchetStateManager`, `ContactManager`, `AstraController` and
  `IdmpHandover`.

Conventions used throughout:

- Objects whose fields the source updates in place are classes with
  `modifies` clauses. Their methods are proved against pure functions on
  values (`Store`, `Process`, `Evaluate`, ...), and the lemmas about the
  system's promises are stated on those functions.
- The clock (`System.currentTimeMillis`) is a `now` parameter.
- Callbacks and listeners become returned values: an `Option`, or a
  sequence of notifications or callbacks.
- Kotlin `Int`/`Long` arithmetic is written out in `JvmArith`. Division
  and remainder truncate toward zero. `Wrap32` and signed bytes are made
  explicit wherever a wrap can happen.
- `Float` and `Double` values are exact `real`s.
- Byte arrays are sequences of `bv8`, except where the source writes into
  one in place; those are `array<bv8>`: the ratchet state page, the packet
  router's in-place TTL rewrite, the FEC parity buffer
  (`ForwardErrorCorrection.XorInPlace`, `ForwardErrorCorrection.XorAll`) and
  the reassembly `ByteBuffer` (`Assembler.PutChunk`, `Assembler.PutBytes`).

## Model

| member | source | states |
|---|---|---|
| ByteBuffer.GetPut | app/src/main/java/net/lifenet/core/messaging/assembler/LifenetFragmenter.kt:26-29 | reading back `n` big-endian bytes written by `put` gives the value modulo 256^n |
| ByteBuffer.GetSignedPut | app/src/main/java/net/lifenet/core/radio/HybridTransportManager.kt:67-69 | `getLong`/`getShort` after `putLong`/`putShort` give the value truncated to the signed width |
| ByteBuffer.GetPutWord | app/src/main/java/net/lifenet/core/messaging/assembler/LifenetFragmenter.kt:34 | `putInt(crc)` then `getInt()` gives the CRC back |
| Chunks.CeilDivIsCeiling | app/src/main/java/net/lifenet/core/transport/vsie/LmtpSegmenter.kt:8-11 | the number of segments the loop cuts from n bytes, CeilDiv(n, c), is the least k with n <= k*c, and equals (n + c - 1) / c |
| Crc32.Compute | app/src/main/java/net/lifenet/core/messaging/assembler/LifenetFragmenter.kt:32-34 | the bitwise loop (reflected polynomial 0xEDB88320, initial and final XOR 0xFFFFFFFF) computes the CRC-32 checksum function |
| Crc32.UpdateAppend | app/src/main/java/net/lifenet/core/messaging/assembler/LifenetFragmenter.kt:33 | the running register after a + b is the register after a, fed b: `update` may be called piecewise |
| Crc32.CheckValue | app/src/main/java/net/lifenet/core/messaging/assembler/LifenetFragmenter.kt:32-34 | the CRC-32 of the ASCII digits "123456789" is the standard check value 0xCBF43926 |
| Fragmenter.ChunkCount | app/src/main/java/net/lifenet/core/messaging/assembler/LifenetFragmenter.kt:19 | `ceil(n.toDouble() / (mtu - 17)).toInt()`: 0 for an empty payload, never negative when a chunk has room, and positive only when it has |
| Fragmenter.ChunkCountIsCeiling | app/src/main/java/net/lifenet/core/messaging/assembler/LifenetFragmenter.kt:19 | with room in a chunk, the count is the integer ceiling of n / (mtu - 17) |
| Fragmenter.Header | app/src/main/java/net/lifenet/core/messaging/assembler/LifenetFragmenter.kt:26-34 | the header is 17 bytes long |
| Fragmenter.HeaderLayout | app/src/main/java/net/lifenet/core/messaging/assembler/LifenetFragmenter.kt:8-34 | bytes 0-7 hold the id, 8-9 the chunk count, 10-11 the index, 12 the FEC flag and 13-16 the CRC, each big-endian |
| Fragmenter.DecodeHeader | app/src/main/java/net/lifenet/core/radio/HybridTransportManager.kt:63-72 | a header is read exactly from frames of at least 17 bytes; count and index come back as signed Shorts |
| Fragmenter.DecodeEncodeHeader | app/src/main/java/net/lifenet/core/radio/HybridTransportManager.kt:63-72 | decoding an encoded header gives every field back, truncated to its signed width (`toShort()`) |
| Fragmenter.ShortFieldsExact | app/src/main/java/net/lifenet/core/messaging/assembler/LifenetFragmenter.kt:27-29 | for a Long id and 0 <= index < count < 32768 the header round trip is exact |
| Fragmenter.HeadersForEach | app/src/main/java/net/lifenet/core/messaging/assembler/LifenetFragmenter.kt:26-34 | fragment j carries the id, the common count, index j, FEC flag 0 and the CRC of its own data |
| Fragmenter.MakeFragment | app/src/main/java/net/lifenet/core/messaging/assembler/LifenetFragmenter.kt:26-36 | one loop turn: the fragment holds the chunk and the header for its index |
| Fragmenter.Fragmentate | app/src/main/java/net/lifenet/core/messaging/assembler/LifenetFragmenter.kt:17-40 | the count is the Double ceiling of n / (mtu - 17); the data concatenate to the payload; every chunk is non-empty and at most mtu - 17, all but the last full; each header is its index's; an empty payload or an MTU below 17 gives no fragments; an MTU of exactly 17 is admitted only with an empty payload |
| Fragmenter.DataOfJoined | app/src/main/java/net/lifenet/core/messaging/assembler/LifenetFragmenter.kt:22-36 | the fragments' data, taken in order, concatenate to what the fragments join to, and have the same chunk sizes |
| Fragmenter.CutChunks | app/src/main/java/net/lifenet/core/messaging/assembler/LifenetFragmenter.kt:21-37 | the loop produces exactly `totalChunks` fragments whose data concatenate to the payload, sized and headed as above |
| Fragmenter.CutNext | app/src/main/java/net/lifenet/core/messaging/assembler/LifenetFragmenter.kt:22-36 | one loop turn keeps the loop invariant (fragments so far cover payload[..start], sized and headed) and adds one fragment |
| Fragmenter.ProgressDone | app/src/main/java/net/lifenet/core/messaging/assembler/LifenetFragmenter.kt:21-39 | when the loop has produced `totalChunks` fragments they cover the payload exactly |
| Fragmenter.DefaultMtuScenario | app/src/main/java/net/lifenet/core/messaging/assembler/LifenetFragmenter.kt:10-24 | 1000 bytes at the default MTU of 512 give 3 chunks of 495, 495 and 10 bytes |
| ForwardErrorCorrection.MaxLength | app/src/main/java/net/lifenet/core/messaging/assembler/ForwardErrorCorrection.kt:16 | `maxOf { it.size }`: no fragment is longer and some fragment has that length |
| ForwardErrorCorrection.XorInPlace | app/src/main/java/net/lifenet/core/messaging/assembler/ForwardErrorCorrection.kt:20-22 | the inner loop XORs the fragment's bytes into the buffer and leaves the bytes past it alone |
| ForwardErrorCorrection.Longest | app/src/main/java/net/lifenet/core/messaging/assembler/ForwardErrorCorrection.kt:16 | the loop finds the maximum fragment length |
| ForwardErrorCorrection.XorAll | app/src/main/java/net/lifenet/core/messaging/assembler/ForwardErrorCorrection.kt:19-23 | after the outer loop, byte i is its old value XOR the column of byte i over all fragments |
| ForwardErrorCorrection.GenerateParity | app/src/main/java/net/lifenet/core/messaging/assembler/ForwardErrorCorrection.kt:13-28 | no fragments give an empty parity; otherwise the parity is as long as the longest fragment and byte i is the XOR of byte i of every fragment long enough to have one |
| ForwardErrorCorrection.Recover | app/src/main/java/net/lifenet/core/messaging/assembler/ForwardErrorCorrection.kt:33-41 | a fragment longer than the parity is an index error; otherwise byte i is parity byte i XOR byte i of every fragment, and the result is as long as the parity |
| ForwardErrorCorrection.SingleErasure | app/src/main/java/net/lifenet/core/messaging/assembler/ForwardErrorCorrection.kt:13-41 | recovering with exactly one fragment missing gives that fragment, zero-padded to the parity length |
| ForwardErrorCorrection.NothingLost | app/src/main/java/net/lifenet/core/messaging/assembler/ForwardErrorCorrection.kt:13-41 | recovering with every fragment present gives all zeros |
| ForwardErrorCorrection.ColumnWithout | app/src/main/java/net/lifenet/core/messaging/assembler/ForwardErrorCorrection.kt:19-23 | a column is the column without fragment k, XOR fragment k's byte |
| ForwardErrorCorrection.ColumnPermutation | app/src/main/java/net/lifenet/core/messaging/assembler/ForwardErrorCorrection.kt:35-39 | the XOR of a column is the same for any ordering of the same fragments |
| ForwardErrorCorrection.RecoveredPermutation | app/src/main/java/net/lifenet/core/messaging/assembler/LifenetAssembler.kt:58 | `recover` gives the same result whatever order `fragments.values.toList()` lists the held chunks in |
| Assembler.Store | app/src/main/java/net/lifenet/core/messaging/assembler/LifenetAssembler.kt:42 | `fragments[index] = data`: the index maps to the new data, every other index is unchanged, and the count grows only for a new index |
| Assembler.Sweep | app/src/main/java/net/lifenet/core/messaging/assembler/LifenetAssembler.kt:79-82 | exactly the sessions older than 300000 ms are removed; the others are kept unchanged |
| Assembler.Assemble | app/src/main/java/net/lifenet/core/messaging/assembler/LifenetAssembler.kt:68-76 | never null; a buffer exactly when every index 0 .. total-1 is present, as long as all stored chunks together |
| Assembler.AssembleCases | app/src/main/java/net/lifenet/core/messaging/assembler/LifenetAssembler.kt:68-76 | a missing index throws a NullPointerException (`put(null)`); otherwise the chunks in index order followed by zeros up to the total size |
| Assembler.Finalize | app/src/main/java/net/lifenet/core/messaging/assembler/LifenetAssembler.kt:66-67 | the session is removed, and the reply is null exactly when there was none |
| Assembler.Receive | app/src/main/java/net/lifenet/core/messaging/assembler/LifenetAssembler.kt:27-64 | the cache stays well formed: every session is keyed by its own id and its chunk indices are distinct |
| Assembler.CompleteAssembles | app/src/main/java/net/lifenet/core/messaging/assembler/LifenetAssembler.kt:46-77 | once the count reaches the total the session is removed; the reply is null if the sweep took it, and otherwise the chunks concatenated in order |
| Assembler.PendingKeeps | app/src/main/java/net/lifenet/core/messaging/assembler/LifenetAssembler.kt:46-63 | otherwise (and no single-gap recovery) the reply is null, the session is kept exactly when it has not expired, and other live sessions are untouched |
| Assembler.FirstTotalKept | app/src/main/java/net/lifenet/core/messaging/assembler/LifenetAssembler.kt:35-43 | an existing session keeps its first total and start time; a FEC chunk only replaces the parity; a repeated index does not grow the count |
| Assembler.RecoveryFills | app/src/main/java/net/lifenet/core/messaging/assembler/LifenetAssembler.kt:54-61 | with one chunk missing and parity held, the smallest absent index is filled with the recovered bytes and the message is assembled; a fragment longer than the parity throws instead |
| Assembler.GapExists | app/src/main/java/net/lifenet/core/messaging/assembler/LifenetAssembler.kt:57 | with n-1 distinct indices, `first { !containsKey(it) }` always finds one in 0 .. n-1 (it never throws NoSuchElementException) |
| Assembler.FindMissing | app/src/main/java/net/lifenet/core/messaging/assembler/LifenetAssembler.kt:57 | the search returns the smallest absent index |
| Assembler.BuildBuffer | app/src/main/java/net/lifenet/core/messaging/assembler/LifenetAssembler.kt:68-76 | the buffer loop computes exactly `Assemble`, including the exception on a missing index |
| Assembler.PutBytes | app/src/main/java/net/lifenet/core/messaging/assembler/LifenetAssembler.kt:72 | `ByteBuffer.put(src)` at a position overwrites exactly those bytes |
| Assembler.LifenetAssembler.CleanExpiredSessions | app/src/main/java/net/lifenet/core/messaging/assembler/LifenetAssembler.kt:79-82 | the cache becomes `Sweep` of the old cache |
| Assembler.LifenetAssembler.FinalizeSession | app/src/main/java/net/lifenet/core/messaging/assembler/LifenetAssembler.kt:66-77 | cache and reply are `Finalize` of the old cache |
| Assembler.LifenetAssembler.OnFragmentReceived | app/src/main/java/net/lifenet/core/messaging/assembler/LifenetAssembler.kt:27-64 | cache and reply are `Receive` of the old cache and the arguments |
| LmtpSegmenter.Fragment | app/src/main/java/net/lifenet/core/transport/vsie/LmtpSegmenter.kt:5-13 | the segments concatenate to the payload, each is non-empty and at most segmentSize with all but the last full, there are ceil(n / segmentSize) of them, and none for an empty payload |
| LmtpSegmenter.Reassemble | app/src/main/java/net/lifenet/core/transport/vsie/LmtpSegmenter.kt:16-19 | one segment holding the input |
| LmtpSegmenter.SmallPayloadOneSegment | app/src/main/java/net/lifenet/core/transport/vsie/LmtpSegmenter.kt:5-19 | a payload that fits one segment is fragmented into what `reassemble` returns |
| Assembler.LifenetAssembler.Complete | app/src/main/java/net/lifenet/core/messaging/assembler/LifenetAssembler.kt:48-63 | the completion and recovery checks after storing and sweeping: cache and reply are `Decide` of the old cache and the session |
| Assembler.ReceiveDecides | app/src/main/java/net/lifenet/core/messaging/assembler/LifenetAssembler.kt:35-64 | a received fragment is stored in its session, the sweep keeps the cache well formed and keeps the session unless it has expired, and the reply is that of the completion and recovery checks on the swept cache |
| Assembler.RecoveredAllBut | app/src/main/java/net/lifenet/core/messaging/assembler/LifenetAssembler.kt:58 | holding every chunk of a message but chunk k, in any order, and the parity of all of them, `recover` gives chunk k zero-padded to the longest chunk |
| Assembler.FilledIn | app/src/main/java/net/lifenet/core/messaging/assembler/LifenetAssembler.kt:59-76 | storing a value at the one missing index and assembling gives the chunks in index order with that value in place k |
| Assembler.DecideRecovers | app/src/main/java/net/lifenet/core/messaging/assembler/LifenetAssembler.kt:54-60 | with n-1 chunks and a parity whose recovery succeeds, the session is removed and the reply assembles the chunks with the recovered bytes at the first missing index |
| Assembler.RecoveredInAnyOrder | app/src/main/java/net/lifenet/core/messaging/assembler/LifenetAssembler.kt:54-76 | with all chunks but k held in any order and the parity of all, the session is removed and the reply is the chunks in order with chunk k zero-padded |
| Assembler.PaddedAtEnd | app/src/main/java/net/lifenet/core/messaging/assembler/LifenetAssembler.kt:68-76 | padding one chunk of a sized chunking to the longest length adds zeros only at the end of the concatenation (only the last chunk can be short) |
| Assembler.FecRoundTrip | app/src/main/java/net/lifenet/core/messaging/assembler/LifenetAssembler.kt:27-77 | end to end: for the chunks of any fragmented payload, any one of them withheld and the rest delivered in any order with the parity, the reply is the payload, followed by as many zeros as the withheld chunk is shorter than the longest; exactly the payload when a full chunk was withheld |
| MeshTypes.DefaultQoS | app/src/main/java/net/lifenet/core/data/Message.kt:27-44 | PTT, SOS, SYSTEM and HEARTBEAT are CRITICAL; TEXT, LOCATION, NOTIFICATION and IMAGE are NORMAL; LOG, SYNC, FILE and TELEMETRY are BULK (each direction) |
| MeshTypes.TiersOrdered | app/src/main/java/net/lifenet/core/messaging/qos/QoSLevel.kt:10-14 | the base priorities order the tiers: CRITICAL above NORMAL above BULK, all positive |
| MeshTypes.NewEnvelope | app/src/main/java/net/lifenet/core/messaging/MessageEnvelope.kt:5-16 | an envelope holds the given fields and the defaults: hop count 0, no last hop, TTL 10, priority 0, type TEXT |
| Forwarding.Record | app/src/main/java/net/lifenet/core/messaging/forward/ForwardingEngine.kt:25-45 | recording an id appends it as the most recent entry, evicts the eldest only when the map would exceed its limit, never exceeds the limit and adds no other id |
| Forwarding.Receive | app/src/main/java/net/lifenet/core/messaging/forward/ForwardingEngine.kt:37-55 | DROP_LOOP exactly for an id already seen (cache unchanged); otherwise the id is recorded, then DROP_EXPIRED exactly when ttl <= 0 and ACCEPT_AND_FORWARD exactly when ttl > 0 |
| Forwarding.ExpiredStillRecorded | app/src/main/java/net/lifenet/core/messaging/forward/ForwardingEngine.kt:45-51 | an expired message is still remembered, so its later copies are dropped as loops |
| Forwarding.BoundedCache | app/src/main/java/net/lifenet/core/messaging/forward/ForwardingEngine.kt:25-30 | the seen-map never holds more than maxSeenMessages ids, and no id twice |
| Forwarding.LruEviction | app/src/main/java/net/lifenet/core/messaging/forward/ForwardingEngine.kt:26-29 | when full, recording a new id evicts exactly the eldest entry |
| Forwarding.StaysSeen | app/src/main/java/net/lifenet/core/messaging/forward/ForwardingEngine.kt:26-45 | an id stays remembered for as long as fewer than the limit's worth of other ids arrive after it |
| Forwarding.AcceptedOnce | app/src/main/java/net/lifenet/core/messaging/forward/ForwardingEngine.kt:37-54 | a message that was accepted is dropped as a loop when it comes back after fewer than maxSeenMessages other messages |
| Forwarding.Keep | app/src/main/java/net/lifenet/core/messaging/forward/ForwardingEngine.kt:82-93 | pruning keeps exactly the entries whose timestamp is at least the cutoff, in their order |
| Forwarding.KeepSeen | app/src/main/java/net/lifenet/core/messaging/forward/ForwardingEngine.kt:82-93 | after pruning an id is still seen exactly when its entry was not older than the cutoff |
| Forwarding.ForwardingEngine.constructor | app/src/main/java/net/lifenet/core/messaging/forward/ForwardingEngine.kt:15-30 | a fresh engine has an empty seen-map and the given limit |
| Forwarding.ForwardingEngine.OnMessageReceived | app/src/main/java/net/lifenet/core/messaging/forward/ForwardingEngine.kt:37-55 | the seen-map and the decision are `Receive` of the old map |
| Forwarding.ForwardingEngine.ShouldForwardToPeer | app/src/main/java/net/lifenet/core/messaging/forward/ForwardingEngine.kt:61-77 | false exactly when the peer is the last hop or this node |
| Forwarding.ForwardingEngine.PruneOlderThan | app/src/main/java/net/lifenet/core/messaging/forward/ForwardingEngine.kt:82-93 | the seen-map becomes `Keep` of the old map with cutoff now - maxAgeMs |
| PacketRouter.Trim | app/src/main/java/net/lifenet/core/routing/PacketRouter.kt:58 | `String.trim()`: the result has no whitespace at either end and is a slice of the input with only whitespace cut off |
| PacketRouter.TrimSlice | app/src/main/java/net/lifenet/core/routing/PacketRouter.kt:58 | the trimmed id is s[a..b] where everything before a and from b on is whitespace |
| PacketRouter.TrimIdempotent | app/src/main/java/net/lifenet/core/routing/PacketRouter.kt:58 | trimming twice is trimming once |
| PacketRouter.Remember | app/src/main/java/net/lifenet/core/routing/PacketRouter.kt:40-43 | the id is added; a set already holding more than 5000 ids is flushed first, so the set never holds more than 5001 |
| PacketRouter.PacketId | app/src/main/java/net/lifenet/core/routing/PacketRouter.kt:32 | the id is a signed 64-bit Long read from bytes 0..7 |
| PacketRouter.Ttl | app/src/main/java/net/lifenet/core/routing/PacketRouter.kt:45 | the TTL is byte 8 read as a signed Byte, in -128 .. 127 |
| PacketRouter.Hops | app/src/main/java/net/lifenet/core/routing/PacketRouter.kt:46 | the hop count is byte 9 read as a signed Byte, in -128 .. 127 |
| PacketRouter.ExpiredBytes | app/src/main/java/net/lifenet/core/routing/PacketRouter.kt:45-50 | a packet is dropped as expired exactly when its TTL byte is 0 or has the top bit set, or its hop byte is 15 .. 127; a hop byte with the top bit set reads as negative and passes |
| PacketRouter.TargetTrimmed | app/src/main/java/net/lifenet/core/routing/PacketRouter.kt:55-58 | the decoded target id is already trimmed |
| PacketRouter.Route | app/src/main/java/net/lifenet/core/routing/PacketRouter.kt:28-64 | shorter than 74 bytes: DROP_INVALID, set unchanged; a seen id: DROP_DUPLICATE, set unchanged; otherwise the id is remembered, then DROP_EXPIRED exactly when ttl <= 0 or hops >= 15, CONSUME exactly when the trimmed target is this node, FORWARD otherwise |
| PacketRouter.BoundedSeen | app/src/main/java/net/lifenet/core/routing/PacketRouter.kt:15-43 | the seen set stays within 5001 ids |
| PacketRouter.ReplayDropped | app/src/main/java/net/lifenet/core/routing/PacketRouter.kt:35-43 | any well-sized packet routed once is a duplicate the second time |
| PacketRouter.Bumped | app/src/main/java/net/lifenet/core/routing/PacketRouter.kt:74-85 | byte 8 (TTL) is decremented and byte 9 (hops) incremented, wrapping as bytes; every other byte is unchanged |
| PacketRouter.ByteDecrement | app/src/main/java/net/lifenet/core/routing/PacketRouter.kt:82 | `(b - 1).toByte()` read back as a signed byte is one less, except that -128 wraps to 127 |
| PacketRouter.ByteIncrement | app/src/main/java/net/lifenet/core/routing/PacketRouter.kt:83 | `(b + 1).toByte()` read back as a signed byte is one more, except that 127 wraps to -128 |
| PacketRouter.ForwardedHeader | app/src/main/java/net/lifenet/core/routing/PacketRouter.kt:49-85 | a packet routed FORWARD leaves with TTL one less (still >= 0), hops one more (at most 15) and the same id and target |
| PacketRouter.PacketRouter.constructor | app/src/main/java/net/lifenet/core/routing/PacketRouter.kt:11-15 | a fresh router has an empty seen set |
| PacketRouter.PacketRouter.OnReceivePacket | app/src/main/java/net/lifenet/core/routing/PacketRouter.kt:28-64 | the seen set and the decision are `Route` of the old set and the packet bytes |
| PacketRouter.PacketRouter.PrepareForForwarding | app/src/main/java/net/lifenet/core/routing/PacketRouter.kt:74-85 | the same array comes back with `Bumped` contents; a packet of at most 9 bytes is an index error and is left unchanged |
| Routing.Recent | app/src/main/java/net/lifenet/core/messaging/routing/RoutingEngine.kt:54-63 | the cleanup keeps exactly the entries at most 300000 ms old, unchanged |
| Routing.Process | app/src/main/java/net/lifenet/core/messaging/routing/RoutingEngine.kt:21-52 | the history is cleaned first; a recent id produces no callbacks; a new id is stamped with now |
| Routing.FreshCallbacks | app/src/main/java/net/lifenet/core/messaging/routing/RoutingEngine.kt:36-51 | a new envelope is delivered exactly once when addressed to this node or BROADCAST, and relayed exactly once, as the relayed copy, when not addressed to this node and its TTL is positive |
| Routing.SeenIsSilent | app/src/main/java/net/lifenet/core/messaging/routing/RoutingEngine.kt:26-28 | an id seen within the last 300000 ms produces no callbacks |
| Routing.PurgedBeforeCheck | app/src/main/java/net/lifenet/core/messaging/routing/RoutingEngine.kt:23-59 | an id seen longer ago is purged before the check and is processed as new |
| Routing.RelayedCopy | app/src/main/java/net/lifenet/core/messaging/routing/RoutingEngine.kt:44-48 | the relayed copy has this node as last hop, TTL one less and hop count one more (for a hop count below Int.MAX_VALUE); every other field is the original's; a relayed copy's TTL is never negative |
| Routing.Relayed | app/src/main/java/net/lifenet/core/messaging/routing/RoutingEngine.kt:44-48 | the copy's last hop is this node, its TTL one less and its hop count one more with 32-bit wrap-around; no other field changes |
| Routing.DeliveryCases | app/src/main/java/net/lifenet/core/messaging/routing/RoutingEngine.kt:36-43 | an envelope is both delivered here and relayed exactly when it is a broadcast with TTL left, and neither exactly when it is for another node and its TTL has run out |
| Routing.BroadcastDeliveredAndRelayed | app/src/main/java/net/lifenet/core/messaging/routing/RoutingEngine.kt:36-51 | a new BROADCAST envelope with TTL left is delivered locally and then relayed |
| Routing.RelayedOnce | app/src/main/java/net/lifenet/core/messaging/routing/RoutingEngine.kt:26-31 | the same id arriving again within 300000 ms produces nothing |
| Routing.RoutingEngine.constructor | app/src/main/java/net/lifenet/core/messaging/routing/RoutingEngine.kt:7-16 | a fresh engine has an empty history |
| Routing.RoutingEngine.ProcessIncomingEnvelope | app/src/main/java/net/lifenet/core/messaging/routing/RoutingEngine.kt:21-52 | history and callbacks are `Process` of the old history and the envelope |
| Routing.RoutingEngine.CleanupHistory | app/src/main/java/net/lifenet/core/messaging/routing/RoutingEngine.kt:54-63 | the history becomes `Recent` of the old history |
| MeshStateAnalyzer.Push | app/src/main/java/net/lifenet/core/mesh/engine/MeshStateAnalyzer.kt:18-23 | the sample becomes the newest entry, and a window of at most five stays at most five |
| MeshStateAnalyzer.RecordedIsSuffix | app/src/main/java/net/lifenet/core/mesh/engine/MeshStateAnalyzer.kt:15-23 | after any sequence of samples the window is exactly the last five (fewer at the start), oldest first |
| MeshStateAnalyzer.Average | app/src/main/java/net/lifenet/core/mesh/engine/MeshStateAnalyzer.kt:61-82 | the field-wise mean, Int fields by truncating division and Float fields exactly, over max(1, size); a single sample is its own average |
| MeshStateAnalyzer.SignalBadness | app/src/main/java/net/lifenet/core/mesh/engine/MeshStateAnalyzer.kt:36-37 | (noise + 100) / 60 clamped to [0, 1]: 0 at or below -100 dBm, 1 at or above -40 dBm, linear between |
| MeshStateAnalyzer.Score | app/src/main/java/net/lifenet/core/mesh/engine/MeshStateAnalyzer.kt:29-46 | always in [0, 100]; 0 for an empty window |
| MeshStateAnalyzer.DelayForScore | app/src/main/java/net/lifenet/core/mesh/engine/MeshStateAnalyzer.kt:51-59 | one of 0, 500, 1500, 3000 or 6000 ms; 0 exactly below 20 and 6000 exactly from 80 |
| MeshStateAnalyzer.DelayMonotone | app/src/main/java/net/lifenet/core/mesh/engine/MeshStateAnalyzer.kt:51-59 | a higher score never gets a shorter delay |
| MeshStateAnalyzer.SingleSampleScenario | app/src/main/java/net/lifenet/core/mesh/engine/MeshStateAnalyzer.kt:29-59 | 10 peers, collision rate 0.5, -70 dBm and queue pressure 0.2 score 40 and wait 1500 ms |
| MeshStateAnalyzer.MeshStateAnalyzer.constructor | app/src/main/java/net/lifenet/core/mesh/engine/MeshStateAnalyzer.kt:15-16 | the window starts empty |
| MeshStateAnalyzer.MeshStateAnalyzer.RecordTelemetry | app/src/main/java/net/lifenet/core/mesh/engine/MeshStateAnalyzer.kt:18-23 | the window becomes `Push` of the old window and stays within five |
| MeshStateAnalyzer.MeshStateAnalyzer.MovingAverage | app/src/main/java/net/lifenet/core/mesh/engine/MeshStateAnalyzer.kt:61-82 | the summing loop computes `Average` of the window |
| MeshStateAnalyzer.MeshStateAnalyzer.CurrentCongestionScore | app/src/main/java/net/lifenet/core/mesh/engine/MeshStateAnalyzer.kt:29-46 | the score is `Score` of the window, in [0, 100] |
| AdaptiveMeshController.IntervalFor | app/src/main/java/net/lifenet/core/mesh/engine/AdaptiveMeshController.kt:22-35 | the broadcast interval is one of 3000/7000/15000/30000 ms in DISASTER mode and one of 10000/20000/60000 ms in DAILY mode |
| AdaptiveMeshController.NextEpoch | app/src/main/java/net/lifenet/core/mesh/engine/AdaptiveMeshController.kt:38-48 | an epoch in [500, 5000] stays there; DAILY mode never shortens it; DISASTER mode leaves it alone for scores 30 .. 70 |
| AdaptiveMeshController.TxPowerFor | app/src/main/java/net/lifenet/core/mesh/engine/AdaptiveMeshController.kt:51-55 | the power level is 0, 1 or 2 |
| AdaptiveMeshController.TxPowerNonIncreasing | app/src/main/java/net/lifenet/core/mesh/engine/AdaptiveMeshController.kt:51-55 | more congestion never raises the transmit power |
| AdaptiveMeshController.IntervalNonDecreasing | app/src/main/java/net/lifenet/core/mesh/engine/AdaptiveMeshController.kt:22-35 | more congestion never shortens the broadcast interval |
| AdaptiveMeshController.EpochStaysInRange | app/src/main/java/net/lifenet/core/mesh/engine/AdaptiveMeshController.kt:14-48 | over any sequence of tune calls the epoch stays within [500, 5000] |
| AdaptiveMeshController.DailyEpochGrows | app/src/main/java/net/lifenet/core/mesh/engine/AdaptiveMeshController.kt:47 | over DAILY-mode tune calls the epoch never shrinks |
| AdaptiveMeshController.AdaptiveMeshController.constructor | app/src/main/java/net/lifenet/core/mesh/engine/AdaptiveMeshController.kt:11-14 | interval 5000 ms, power 1, epoch 2000 ms |
| AdaptiveMeshController.AdaptiveMeshController.Tune | app/src/main/java/net/lifenet/core/mesh/engine/AdaptiveMeshController.kt:19-61 | the three fields become `IntervalFor`, `NextEpoch` of the old epoch and `TxPowerFor` |
| AdaptiveMeshController.AdaptiveMeshController.GetCurrentEpochMs | app/src/main/java/net/lifenet/core/mesh/engine/AdaptiveMeshController.kt:63 | the epoch read is always within [500, 5000] |
| AdaptiveMeshController.AdaptiveMeshController.GetTxPower | app/src/main/java/net/lifenet/core/mesh/engine/AdaptiveMeshController.kt:65 | the power read is 0, 1 or 2 |
| AdaptivePowerManager.ProfileFor | app/src/main/java/net/lifenet/core/mesh/engine/AdaptivePowerManager.kt:42-46 | LOW_POWER exactly below 20 %, NORMAL exactly from 20 % to below 50 %, AGGRESSIVE exactly from 50 % |
| AdaptivePowerManager.ProfileMonotone | app/src/main/java/net/lifenet/core/mesh/engine/AdaptivePowerManager.kt:42-46 | more battery never selects a lower-power profile |
| AdaptivePowerManager.AdaptivePowerManager.constructor | app/src/main/java/net/lifenet/core/mesh/engine/AdaptivePowerManager.kt:24 | the profile starts NORMAL |
| AdaptivePowerManager.AdaptivePowerManager.EvaluateProfile | app/src/main/java/net/lifenet/core/mesh/engine/AdaptivePowerManager.kt:41-53 | the profile becomes `ProfileFor(pct)`, and the listener is notified, with that profile, exactly when it changed |
| AdaptivePowerManager.RepeatedReadingIsQuiet | app/src/main/java/net/lifenet/core/mesh/engine/AdaptivePowerManager.kt:48-52 | the same reading twice notifies at most once: the second call is silent |
| AdaptivePowerManager.FirstNormalReadingIsQuiet | app/src/main/java/net/lifenet/core/mesh/engine/AdaptivePowerManager.kt:24-52 | a fresh manager reading a battery between 20 % and 50 % notifies nobody |
| FrequencyHopping.NextChannel | app/src/main/java/net/lifenet/core/mesh/engine/FrequencyHoppingController.kt:29 | `currentChannel % maxChannels + 1` on channels 1 .. max: the next channel, and max wraps to 1 |
| FrequencyHopping.HopsClimb | app/src/main/java/net/lifenet/core/mesh/engine/FrequencyHoppingController.kt:29 | hopping n times from c climbs to c + n while that stays within max |
| FrequencyHopping.RoundRobin | app/src/main/java/net/lifenet/core/mesh/engine/FrequencyHoppingController.kt:29 | max hops from any channel return to it: every channel is visited in turn |
| FrequencyHopping.WrapToFirst | app/src/main/java/net/lifenet/core/mesh/engine/FrequencyHoppingController.kt:29 | the hop after the last channel is channel 1 |
| FrequencyHopping.HopsShift | app/src/main/java/net/lifenet/core/mesh/engine/FrequencyHoppingController.kt:29 | n hops then k hops are n + k hops |
| FrequencyHopping.FrequencyHoppingController.constructor | app/src/main/java/net/lifenet/core/mesh/engine/FrequencyHoppingController.kt:9-15 | channel 1, last switch at 0 |
| FrequencyHopping.FrequencyHoppingController.EvaluateHopping | app/src/main/java/net/lifenet/core/mesh/engine/FrequencyHoppingController.kt:18-36 | within five minutes of the last switch, or at a score of at most 85, nothing changes; otherwise the channel hops to `NextChannel` and the switch time becomes now (with zero channels the division throws and nothing changes) |
| RuntimeMetrics.Make | app/src/main/java/net/lifenet/core/messaging/qos/RuntimeMetrics.kt:14-26 | construction succeeds exactly when battery is in 0..100, stability in [0, 1] and the counts are non-negative, and then holds the given fields |
| RuntimeMetrics.BatteryOutOfRangeRejected | app/src/main/java/net/lifenet/core/messaging/qos/RuntimeMetrics.kt:22 | a battery level of 150 is rejected |
| RuntimeMetrics.ThresholdsAreStrict | app/src/main/java/net/lifenet/core/messaging/qos/RuntimeMetrics.kt:31-47 | high load means more than 20 peers or more than 100 queued, a critical battery less than 20, an unstable network a score below 0.5: each boundary value is on the safe side, one step past it is not |
| RuntimeMetrics.ConditionsMonotone | app/src/main/java/net/lifenet/core/messaging/qos/RuntimeMetrics.kt:31-47 | more peers or queue depth, a lower battery or a lower stability score never clear a condition; the mode does not enter them |
| QoSController.Priority | app/src/main/java/net/lifenet/core/messaging/qos/QoSController.kt:54-130 | `calculateQoSPriority`: always between 0 and 120 |
| QoSController.DisasterPriority | app/src/main/java/net/lifenet/core/messaging/qos/QoSController.kt:83-130 | disaster mode never raises a tier above its base priority nor below 0, and leaves CRITICAL at 100 |
| QoSController.CriticalPriority | app/src/main/java/net/lifenet/core/messaging/qos/QoSController.kt:62-69 | CRITICAL traffic gets 120 on an unstable network (stability < 0.5) and 100 otherwise, in both modes |
| QoSController.DailyStatic | app/src/main/java/net/lifenet/core/messaging/qos/QoSController.kt:72-74 | in DAILY mode NORMAL and BULK traffic keep their base priorities 50 and 10 |
| QoSController.DisasterBulk | app/src/main/java/net/lifenet/core/messaging/qos/QoSController.kt:92-107 | in DISASTER mode BULK is 0 exactly on critical battery or a deep queue, 5 exactly under high peer load otherwise, and 10 exactly otherwise |
| QoSController.DisasterNormalLaterWins | app/src/main/java/net/lifenet/core/messaging/qos/QoSController.kt:109-122 | in DISASTER mode NORMAL is 35 on critical battery, else 30 on a deep queue, else 40 with many peers, else 50: the later check overrides the earlier |
| QoSController.ShouldSendIff | app/src/main/java/net/lifenet/core/messaging/qos/QoSController.kt:137-160 | a message is held back exactly when its priority is 0 or it is BULK under high load; CRITICAL and NORMAL traffic is always sent |
| QoSController.DisasterDelay | app/src/main/java/net/lifenet/core/messaging/qos/QoSController.kt:199-211 | the delay is 0, 200, 500, 2000 or 5000 ms |
| QoSController.DisasterDelayMonotone | app/src/main/java/net/lifenet/core/messaging/qos/QoSController.kt:204-210 | a higher priority never waits longer |
| QoSController.Delay | app/src/main/java/net/lifenet/core/messaging/qos/QoSController.kt:167-194 | CRITICAL waits 0; priority 0 waits Long.MAX_VALUE; DAILY waits 100 ms for NORMAL and 1000 ms for BULK; DISASTER waits `DisasterDelay` of the priority |
| QoSController.TestScenarios | app/src/main/java/net/lifenet/core/messaging/qos/QoSController.kt:54-211 | concrete cases: SOS is at least 100 and boosted on a bad network; TEXT in DAILY mode stays 50 and drops in DISASTER mode under load; LOG on low battery and SYNC on a deep queue are stopped; PTT is immediate; FILE waits at least 2 s |
| PriorityMessageQueue.Head | app/src/main/java/net/lifenet/core/messaging/qos/PriorityMessageQueue.kt:17-56 | the head is absent exactly for an empty queue, is in the queue and has the highest priority |
| PriorityMessageQueue.MinIndex | app/src/main/java/net/lifenet/core/messaging/qos/PriorityMessageQueue.kt:29 | `minByOrNull`: an element of least priority |
| PriorityMessageQueue.RemoveAt | app/src/main/java/net/lifenet/core/messaging/qos/PriorityMessageQueue.kt:33 | removing one element takes exactly that element out of the multiset |
| PriorityMessageQueue.PriorityMessageQueue.constructor | app/src/main/java/net/lifenet/core/messaging/qos/PriorityMessageQueue.kt:14-19 | an empty queue with the given capacity |
| PriorityMessageQueue.PriorityMessageQueue.Enqueue | app/src/main/java/net/lifenet/core/messaging/qos/PriorityMessageQueue.kt:26-42 | below capacity the message is added; at capacity it replaces a least-priority element exactly when it has strictly higher priority; otherwise it is refused and the queue is unchanged |
| PriorityMessageQueue.PriorityMessageQueue.Dequeue | app/src/main/java/net/lifenet/core/messaging/qos/PriorityMessageQueue.kt:47-49 | returns `Head` of the queue and removes exactly that element; an empty queue returns null unchanged |
| PriorityMessageQueue.PriorityMessageQueue.Peek | app/src/main/java/net/lifenet/core/messaging/qos/PriorityMessageQueue.kt:54-56 | `Head` of the queue, without change |
| PriorityMessageQueue.PriorityMessageQueue.Size | app/src/main/java/net/lifenet/core/messaging/qos/PriorityMessageQueue.kt:61-63 | the number of queued messages, never above the capacity |
| PriorityMessageQueue.PriorityMessageQueue.Clear | app/src/main/java/net/lifenet/core/messaging/qos/PriorityMessageQueue.kt:68-70 | the queue becomes empty |
| PriorityMessageQueue.PriorityMessageQueue.IsFull | app/src/main/java/net/lifenet/core/messaging/qos/PriorityMessageQueue.kt:75-77 | true exactly when the size has reached maxSize |
| PriorityMessageQueue.PriorityMessageQueue.IsEmpty | app/src/main/java/net/lifenet/core/messaging/qos/PriorityMessageQueue.kt:82-84 | true exactly when nothing is queued |
| PriorityMessageQueue.FullQueueScenario | app/src/main/java/net/lifenet/core/messaging/qos/PriorityMessageQueue.kt:26-37 | a full queue stays full: a message is admitted exactly when it beats the lowest priority |
| PriorityMessageQueue.Survivors | app/src/main/java/net/lifenet/core/messaging/qos/PriorityMessageQueue.kt:26-42 | after any run of enqueues into an empty queue of capacity maxSize, the queue holds a sub-multiset of the messages offered, min(offered, maxSize) of them, and every message refused or displaced ranks no higher than every message kept |
| DispatchScheduler.SynthMetrics | app/src/main/java/net/lifenet/core/messaging/dispatch/DispatchScheduler.kt:105-114 | the synthesized metrics are DAILY with battery 80 and queue depth equal to the score; for a score in 0..100 they are valid, not high load and not battery critical |
| DispatchScheduler.Decide | app/src/main/java/net/lifenet/core/messaging/dispatch/DispatchScheduler.kt:27-79 | a request is ignored exactly while one is in flight; only the QoS path drops; without QoS a score of 95 or more skips; a scheduled delay is at least the congestion delay, and with QoS at least the QoS delay |
| DispatchScheduler.QosNeverDrops | app/src/main/java/net/lifenet/core/messaging/dispatch/DispatchScheduler.kt:36-114 | with the synthesized DAILY metrics QoS never drops a message: the delay is the congestion delay, at least 100 ms for NORMAL and 1000 ms for BULK |
| DispatchScheduler.FallbackBounds | app/src/main/java/net/lifenet/core/messaging/dispatch/DispatchScheduler.kt:62-78 | without QoS, a scheduled request had a score below 95 and waits at most 6000 ms |
| DispatchScheduler.DispatchScheduler.constructor | app/src/main/java/net/lifenet/core/messaging/dispatch/DispatchScheduler.kt:15-22 | a fresh scheduler is not dispatching |
| DispatchScheduler.DispatchScheduler.RequestDispatch | app/src/main/java/net/lifenet/core/messaging/dispatch/DispatchScheduler.kt:27-79 | the outcome is `Decide` of the gate, the analyzer's score and the message type; a request that is not ignored posts the scheduled delay, or nothing when dropped or skipped |
| DispatchScheduler.DispatchScheduler.RequestDispatchLegacy | app/src/main/java/net/lifenet/core/messaging/dispatch/DispatchScheduler.kt:84-103 | the action-only overload: the no-QoS path of `Decide` |
| DispatchScheduler.DispatchScheduler.RunPosted | app/src/main/java/net/lifenet/core/messaging/dispatch/DispatchScheduler.kt:55-102 | running the posted action releases the gate, whether the action throws or not |
| DispatchScheduler.RequestWhileInFlight | app/src/main/java/net/lifenet/core/messaging/dispatch/DispatchScheduler.kt:31 | while an action is pending a new request is ignored and changes nothing |
| DispatchScheduler.ReleasedAfterAction | app/src/main/java/net/lifenet/core/messaging/dispatch/DispatchScheduler.kt:59-100 | once the pending action has run, the next request is not ignored |
| ModeManager.Notices | app/src/main/java/net/lifenet/core/mode/ModeManager.kt:53-55 | one notice per listener, in registration order, carrying the new and the old mode |
| ModeManager.RemoveFirst | app/src/main/java/net/lifenet/core/mode/ModeManager.kt:34-36 | `MutableList.remove`: an absent listener leaves the list alone; a present one is removed once and nobody else is |
| ModeManager.RemoveFirstDistinct | app/src/main/java/net/lifenet/core/mode/ModeManager.kt:28-36 | on a list without duplicates, removal leaves no copy of the listener behind |
| ModeManager.Switch | app/src/main/java/net/lifenet/core/mode/ModeManager.kt:12-26 | the mode becomes the target; listeners are notified, with (target, old mode), only when the mode actually changes |
| ModeManager.NotifiedOnce | app/src/main/java/net/lifenet/core/mode/ModeManager.kt:12-55 | on a change every registered listener is notified, and none twice |
| ModeManager.RemovedHearsNothing | app/src/main/java/net/lifenet/core/mode/ModeManager.kt:34-55 | a removed listener receives no notice |
| ModeManager.ModeManager.constructor | app/src/main/java/net/lifenet/core/mode/ModeManager.kt:4-7 | DAILY mode, no listeners |
| ModeManager.ModeManager.IsDailyMode | app/src/main/java/net/lifenet/core/mode/ModeManager.kt:9 | true exactly in DAILY mode, and the opposite of `IsDisasterMode` |
| ModeManager.ModeManager.IsDisasterMode | app/src/main/java/net/lifenet/core/mode/ModeManager.kt:10 | true exactly in DISASTER mode |
| ModeManager.ModeManager.NotifyListeners | app/src/main/java/net/lifenet/core/mode/ModeManager.kt:53-55 | the notices sent are `Notices` of the listener list |
| ModeManager.ModeManager.SwitchToDailyMode | app/src/main/java/net/lifenet/core/mode/ModeManager.kt:12-18 | mode and notices are `Switch` to DAILY; the listeners are unchanged |
| ModeManager.ModeManager.SwitchToDisasterMode | app/src/main/java/net/lifenet/core/mode/ModeManager.kt:20-26 | mode and notices are `Switch` to DISASTER; the listeners are unchanged |
| ModeManager.ModeManager.AddModeChangeListener | app/src/main/java/net/lifenet/core/mode/ModeManager.kt:28-32 | the listener is appended unless already present; the mode is unchanged |
| ModeManager.ModeManager.RemoveModeChangeListener | app/src/main/java/net/lifenet/core/mode/ModeManager.kt:34-36 | the list becomes `RemoveFirst` of the old list and no longer holds the listener |
| ModeManager.ModeManager.CheckNetworkAndSwitch | app/src/main/java/net/lifenet/core/mode/ModeManager.kt:38-46 | with the network back in DISASTER mode the node switches to DAILY and notifies; otherwise nothing changes and nobody is notified |
| ModeManager.ModeManager.SetMode | app/src/main/java/net/lifenet/core/mode/ModeManager.kt:48-51 | mode and notices are `Switch` to the given mode |
| PrivateMeshIsolation.RelayRule | app/src/main/java/net/lifenet/core/security/PrivateMeshIsolation.kt:37-53 | a sender outside the list is never relayed; an allowed sender broadcasting is; a unicast to a peer outside the list is not |
| PrivateMeshIsolation.PrivateMeshIsolation.constructor | app/src/main/java/net/lifenet/core/security/PrivateMeshIsolation.kt:11-23 | the allowed set is the initial set |
| PrivateMeshIsolation.PrivateMeshIsolation.CanAcceptPeer | app/src/main/java/net/lifenet/core/security/PrivateMeshIsolation.kt:25-35 | true exactly for peers in the allowed set |
| PrivateMeshIsolation.PrivateMeshIsolation.CanRelayMessage | app/src/main/java/net/lifenet/core/security/PrivateMeshIsolation.kt:37-53 | true exactly when the sender is allowed and the target is BROADCAST or allowed |
| PrivateMeshIsolation.PrivateMeshIsolation.UpdateAllowedPeers | app/src/main/java/net/lifenet/core/security/PrivateMeshIsolation.kt:55-61 | the allowed set is replaced by the given peers |
| PrivateMeshIsolation.PrivateMeshIsolation.GetAllowedPeers | app/src/main/java/net/lifenet/core/security/PrivateMeshIsolation.kt:70-72 | the snapshot holds exactly the peers `CanAcceptPeer` accepts |
| PrivateMeshIsolation.PrivateMeshIsolation.AddAllowedPeer | app/src/main/java/net/lifenet/core/security/PrivateMeshIsolation.kt:77-80 | the peer is added and nothing else changes |
| PrivateMeshIsolation.PrivateMeshIsolation.RemoveAllowedPeer | app/src/main/java/net/lifenet/core/security/PrivateMeshIsolation.kt:85-88 | the peer is removed and nothing else changes |
| TrustScoreEngine.Delta | app/src/main/java/net/lifenet/core/security/TrustScoreEngine.kt:18-28 | +3 for a valid signature and a successful relay, +2 for a valid signature alone, -19 and -20 for an invalid one |
| TrustScoreEngine.Updated | app/src/main/java/net/lifenet/core/security/TrustScoreEngine.kt:30 | the new score is always in [0, 100] and is exactly score + delta when that is in range |
| TrustScoreEngine.InvalidNeverRaises | app/src/main/java/net/lifenet/core/security/TrustScoreEngine.kt:20-30 | an invalid signature never raises a score, and lowers any positive one |
| TrustScoreEngine.ValidNeverLowers | app/src/main/java/net/lifenet/core/security/TrustScoreEngine.kt:20-30 | a valid signature never lowers a score |
| TrustScoreEngine.FiveStrikes | app/src/main/java/net/lifenet/core/security/TrustScoreEngine.kt:23-30 | five invalid signatures take any score to 0 |
| TrustScoreEngine.ZeroStays | app/src/main/java/net/lifenet/core/security/TrustScoreEngine.kt:23-30 | a node at 0 stays at 0 under invalid signatures |
| TrustScoreEngine.AfterInvalidSplit | app/src/main/java/net/lifenet/core/security/TrustScoreEngine.kt:16-31 | n + m penalties are n penalties followed by m |
| TrustScoreEngine.TrustColor | app/src/main/java/net/lifenet/core/security/TrustScoreEngine.kt:36-43 | green exactly from 80, gold exactly from 60 to 79, orange exactly from 40 to 59, red exactly below 40 |
| TrustScoreEngine.TrustScoreEngine.constructor | app/src/main/java/net/lifenet/core/security/TrustScoreEngine.kt:10 | no node is rated yet |
| TrustScoreEngine.TrustScoreEngine.GetTrustScore | app/src/main/java/net/lifenet/core/security/TrustScoreEngine.kt:12-14 | 50 for an unknown node, the stored score otherwise, always in [0, 100] |
| TrustScoreEngine.TrustScoreEngine.UpdateTrust | app/src/main/java/net/lifenet/core/security/TrustScoreEngine.kt:16-34 | the node's score becomes `Updated` of its current score; every other entry is unchanged |
| TrustScoreEngine.OthersUnchanged | app/src/main/java/net/lifenet/core/security/TrustScoreEngine.kt:30-31 | updating one node leaves every other node's score unchanged |
| TrustScoreEngine.FirstPenalty | app/src/main/java/net/lifenet/core/security/TrustScoreEngine.kt:13-43 | an unknown node with a bad signature drops from 50 (orange) to 30 (red) |
| JitterBuffer.TargetSize | app/src/main/java/net/lifenet/core/voice/JitterBuffer.kt:10 | `capacityMs / frameDurationMs` on Ints, a 32-bit value |
| JitterBuffer.DefaultTarget | app/src/main/java/net/lifenet/core/voice/JitterBuffer.kt:6-10 | 300 ms of 20 ms frames is a target of 15 packets |
| JitterBuffer.Oldest | app/src/main/java/net/lifenet/core/voice/JitterBuffer.kt:11 | the comparator's head: a packet with the least sequence number (ties: the first to arrive, see Left out) |
| JitterBuffer.RemoveAt | app/src/main/java/net/lifenet/core/voice/JitterBuffer.kt:21-41 | `poll` removes exactly that packet |
| JitterBuffer.ComparatorExact | app/src/main/java/net/lifenet/core/voice/JitterBuffer.kt:11 | for non-negative sequence numbers `a.seq - b.seq` does not overflow and orders by sequence number |
| JitterBuffer.JitterBuffer.constructor | app/src/main/java/net/lifenet/core/voice/JitterBuffer.kt:5-13 | empty, last sequence -1, buffering, with the Int target size |
| JitterBuffer.JitterBuffer.Push | app/src/main/java/net/lifenet/core/voice/JitterBuffer.kt:15-24 | a packet not newer than the last played one is dropped; otherwise it is added, and the oldest packet is dropped when the buffer exceeds twice the target |
| JitterBuffer.JitterBuffer.Pop | app/src/main/java/net/lifenet/core/voice/JitterBuffer.kt:26-42 | while buffering and below target: nothing; on reaching the target or once playing, the oldest packet is played and remembered; an empty buffer while playing re-enters buffering; played sequence numbers never go back |
| JitterBuffer.JitterBuffer.Poll | app/src/main/java/net/lifenet/core/voice/JitterBuffer.kt:30-41 | `poll` with `also { lastSeq = it.seq }`: the oldest packet is removed and its sequence number remembered |
| JitterBuffer.PlaysInOrder | app/src/main/java/net/lifenet/core/voice/JitterBuffer.kt:26-42 | two packets played one after the other come out in sequence order |
| JitterBuffer.LatePacketDropped | app/src/main/java/net/lifenet/core/voice/JitterBuffer.kt:16 | a packet at or before the last played sequence number is discarded |
| KeyCache.Lookup | app/src/enterprise/java/net/lifenet/core/enterprise/kms/KeyCache.kt:26-38 | a key is returned exactly when present and not past its expiry time; an expired key is flagged as expired in place; no key is added or removed |
| KeyCache.ExpiryBoundary | app/src/enterprise/java/net/lifenet/core/enterprise/kms/KeyCache.kt:87 | a key is still valid at its expiry millisecond and stale one later, stays stale as time passes, and the `expired` flag does not affect it |
| KeyCache.ExpiredData | app/src/enterprise/java/net/lifenet/core/enterprise/kms/KeyCache.kt:44-52 | the data is returned exactly for an entry flagged expired |
| KeyCache.Live | app/src/enterprise/java/net/lifenet/core/enterprise/kms/KeyCache.kt:73-80 | eviction keeps exactly the entries not past their expiry, unchanged |
| KeyCache.StaleKeyDegrades | app/src/enterprise/java/net/lifenet/core/enterprise/kms/KeyCache.kt:29-48 | after a failed `get` on an expired key, `getExpired` yields its data |
| KeyCache.PutThenGet | app/src/enterprise/java/net/lifenet/core/enterprise/kms/KeyCache.kt:17-38 | a key put with a TTL is returned until now + ttl and not afterwards; a fresh put clears the expired flag |
| KeyCache.EvictionKeepsFresh | app/src/enterprise/java/net/lifenet/core/enterprise/kms/KeyCache.kt:73-80 | an entry survives eviction exactly when it has not expired, and can then still be read |
| KeyCache.KeyCache.constructor | app/src/enterprise/java/net/lifenet/core/enterprise/kms/KeyCache.kt:12 | the cache starts empty |
| KeyCache.KeyCache.Put | app/src/enterprise/java/net/lifenet/core/enterprise/kms/KeyCache.kt:17-21 | the entry is replaced by the data with expiry now + expirationMs, not flagged expired |
| KeyCache.KeyCache.Get | app/src/enterprise/java/net/lifenet/core/enterprise/kms/KeyCache.kt:26-38 | reply and cache are `Lookup` of the old cache |
| KeyCache.KeyCache.GetExpired | app/src/enterprise/java/net/lifenet/core/enterprise/kms/KeyCache.kt:44-52 | `ExpiredData` of the cache |
| KeyCache.KeyCache.Remove | app/src/enterprise/java/net/lifenet/core/enterprise/kms/KeyCache.kt:57-60 | only that entry is removed |
| KeyCache.KeyCache.Clear | app/src/enterprise/java/net/lifenet/core/enterprise/kms/KeyCache.kt:65-68 | the cache becomes empty |
| KeyCache.KeyCache.EvictExpired | app/src/enterprise/java/net/lifenet/core/enterprise/kms/KeyCache.kt:73-80 | the cache becomes `Live` of the old cache |
| RatchetStateManager.ReversedPrefix | app/src/main/java/net/lifenet/core/crypto/RatchetStateManager.kt:36 | the first 32 bytes of the reversed seed: byte i is the seed's byte from the end |
| RatchetStateManager.SlotBytes | app/src/main/java/net/lifenet/core/crypto/RatchetStateManager.kt:34-37 | a 192-byte slot: root key = the seed's first 32 bytes, sending key = `ReversedPrefix`, receiving key = the first 32 bytes again, the rest zero |
| RatchetStateManager.NextKey | app/src/main/java/net/lifenet/core/crypto/RatchetStateManager.kt:69-71 | `deriveNextKey`: every byte incremented, wrapping at 256, length kept |
| RatchetStateManager.NextKeyInvertible | app/src/main/java/net/lifenet/core/crypto/RatchetStateManager.kt:69-71 | the derivation loses nothing: decrementing every byte gives the old key back |
| RatchetStateManager.SlotsApart | app/src/main/java/net/lifenet/core/crypto/RatchetStateManager.kt:20-41 | two distinct slot offsets that are multiples of 192 are at least 192 apart |
| RatchetStateManager.InitializeAsWritten | app/src/main/java/net/lifenet/core/crypto/RatchetStateManager.kt:29-42 | `initializeSession` as written: a known peer or a full page changes nothing; the offset is recorded before the copies, and a seed shorter than 32 bytes throws before the next offset advances |
| RatchetStateManager.ShortSeedSharesSlot | app/src/main/java/net/lifenet/core/crypto/RatchetStateManager.kt:33-41 | a peer initialized with an empty seed and the next peer are given the same slot |
| RatchetStateManager.Initialize | app/src/main/java/net/lifenet/core/crypto/RatchetStateManager.kt:29-42 | the corrected order: a known peer, a full page or a short seed changes nothing; otherwise the peer gets the next offset and the offset advances by 192 |
| RatchetStateManager.InitializeKeepsSlotsDisjoint | app/src/main/java/net/lifenet/core/crypto/RatchetStateManager.kt:29-42 | with the corrected order, slots of different peers never overlap and the next offset stays a multiple of 192 |
| RatchetStateManager.RatchetStateManager.constructor | app/src/main/java/net/lifenet/core/crypto/RatchetStateManager.kt:19-23 | a zeroed page of maxSessions * 192 bytes, no sessions, next offset 0 |
| RatchetStateManager.RatchetStateManager.InitializeSession | app/src/main/java/net/lifenet/core/crypto/RatchetStateManager.kt:29-42 | offsets are `Initialize` of the old ones; a placed session's slot holds `SlotBytes` of the seed and every other byte is unchanged; otherwise the page is unchanged |
| RatchetStateManager.RatchetStateManager.GetSendingKey | app/src/main/java/net/lifenet/core/crypto/RatchetStateManager.kt:44-55 | null exactly for an unknown peer; otherwise the stored sending key is returned and replaced by `NextKey` of it, and no other byte changes |
| RatchetStateManager.RatchetStateManager.ConstitutionalWipe | app/src/main/java/net/lifenet/core/crypto/RatchetStateManager.kt:61-67 | every byte of the page is zero, no session remains, next offset 0 |
| RatchetStateManager.AdvanceKey | app/src/main/java/net/lifenet/core/crypto/RatchetStateManager.kt:51-53 | the 32 bytes at the key's position become `NextKey` of themselves and nothing else changes |
| RatchetStateManager.OtherSlotsUntouched | app/src/main/java/net/lifenet/core/crypto/RatchetStateManager.kt:44-55 | taking one peer's sending key leaves every other peer's slot unchanged |
| ContactManager.Added | app/src/main/java/net/lifenet/core/contact/ContactManager.kt:8-13 | a contact whose device id is already known is ignored, otherwise appended; ids stay unique |
| ContactManager.Removed | app/src/main/java/net/lifenet/core/contact/ContactManager.kt:15-17 | `removeAll`: exactly the contacts with that id are gone, the rest kept; ids stay unique |
| ContactManager.Find | app/src/main/java/net/lifenet/core/contact/ContactManager.kt:21-22 | none exactly when no contact has the id; otherwise a contact with that id |
| ContactManager.Split | app/src/main/java/net/lifenet/core/contact/ContactManager.kt:29 | `split(":")`: at least one part, none holding a colon |
| ContactManager.SplitJoin | app/src/main/java/net/lifenet/core/contact/ContactManager.kt:29 | joining the parts with colons gives the string back |
| ContactManager.ParseQr | app/src/main/java/net/lifenet/core/contact/ContactManager.kt:24-43 | a QR is accepted only with the "LIFENET:" prefix, an id of 12 or 24 characters and no colon in the id or the name |
| ContactManager.QrRoundTrip | app/src/main/java/net/lifenet/core/contact/ContactManager.kt:24-43 | "LIFENET:" + id + ":" + name parses back to that contact for any id of 12 or 24 characters |
| ContactManager.NameStopsAtSeparator | app/src/main/java/net/lifenet/core/contact/ContactManager.kt:29-32 | extra colon-separated fields after the name are ignored |
| ContactManager.BadIdLengthRefused | app/src/main/java/net/lifenet/core/contact/ContactManager.kt:33 | an id of any other length is refused |
| ContactManager.ContactManager.constructor | app/src/main/java/net/lifenet/core/contact/ContactManager.kt:6 | no contacts |
| ContactManager.ContactManager.AddContact | app/src/main/java/net/lifenet/core/contact/ContactManager.kt:8-13 | the list becomes `Added` of the old list |
| ContactManager.ContactManager.RemoveContact | app/src/main/java/net/lifenet/core/contact/ContactManager.kt:15-17 | the list becomes `Removed` of the old list |
| ContactManager.ContactManager.GetAllContacts | app/src/main/java/net/lifenet/core/contact/ContactManager.kt:19 | a copy of the list |
| ContactManager.ContactManager.FindContact | app/src/main/java/net/lifenet/core/contact/ContactManager.kt:21-22 | `Find` on the list |
| ContactManager.ContactManager.AddContactFromQR | app/src/main/java/net/lifenet/core/contact/ContactManager.kt:24-43 | true exactly when the QR parses, and then the parsed contact is added; otherwise nothing changes |
| AstraController.Activate | app/src/main/java/net/lifenet/core/astra/ASTRAController.kt:16-38 | the status ends ACTIVE; already active changes and publishes nothing; otherwise ACTIVATING then ACTIVE is published and a manual call turns auto mode off |
| AstraController.Deactivate | app/src/main/java/net/lifenet/core/astra/ASTRAController.kt:40-55 | the status ends INACTIVE; already inactive changes nothing; otherwise DEACTIVATING then INACTIVE is published and auto mode is turned back on |
| AstraController.AutoCheck | app/src/main/java/net/lifenet/core/astra/ASTRAController.kt:57-70 | in manual mode nothing happens; in auto mode losing the internet activates and regaining it deactivates; otherwise nothing happens |
| AstraController.AlwaysSettled | app/src/main/java/net/lifenet/core/astra/ASTRAController.kt:16-70 | between calls the status is never left ACTIVATING or DEACTIVATING |
| AstraController.ManualStaysOn | app/src/main/java/net/lifenet/core/astra/ASTRAController.kt:33-61 | after a manual activation no internet check ever turns ASTRA off |
| AstraController.AutoRoundTrip | app/src/main/java/net/lifenet/core/astra/ASTRAController.kt:57-70 | in auto mode, losing and then regaining the internet returns to INACTIVE with auto mode on |
| AstraController.AstraController.constructor | app/src/main/java/net/lifenet/core/astra/ASTRAController.kt:10-14 | INACTIVE, auto mode on |
| AstraController.AstraController.ActivateAstra | app/src/main/java/net/lifenet/core/astra/ASTRAController.kt:16-38 | state and published statuses are `Activate` of the old state |
| AstraController.AstraController.DeactivateAstra | app/src/main/java/net/lifenet/core/astra/ASTRAController.kt:40-55 | state and published statuses are `Deactivate` of the old state |
| AstraController.AstraController.CheckAndAutoActivate | app/src/main/java/net/lifenet/core/astra/ASTRAController.kt:57-70 | state and published statuses are `AutoCheck` of the old state |
| PredictiveRouting.LastN | app/src/main/java/net/lifenet/core/routing/PredictiveRoutingEngine.kt:21-27 | the last n samples (all of them when fewer): a suffix of exactly min(n, size) elements |
| PredictiveRouting.Appended | app/src/main/java/net/lifenet/core/routing/PredictiveRoutingEngine.kt:21-27 | on a window of at most ten, recording a sample gives the last ten of the window plus the sample |
| PredictiveRouting.Jitter | app/src/main/java/net/lifenet/core/routing/PredictiveRoutingEngine.kt:49-55 | the mean absolute change between consecutive samples, never negative |
| PredictiveRouting.Verdict | app/src/main/java/net/lifenet/core/routing/PredictiveRoutingEngine.kt:29-47 | below five samples the verdict is unchanged; otherwise a peer is toxic exactly when the jitter exceeds 150 ms, or it was toxic and the jitter is still at least 75 ms |
| PredictiveRouting.Hysteresis | app/src/main/java/net/lifenet/core/routing/PredictiveRoutingEngine.kt:38-46 | with a jitter between 75 and 150 ms the verdict stays what it was |
| PredictiveRouting.WindowIsLastTen | app/src/main/java/net/lifenet/core/routing/PredictiveRoutingEngine.kt:21-27 | after any sequence of recordings the window is exactly the last ten samples |
| PredictiveRouting.JitterBound | app/src/main/java/net/lifenet/core/routing/PredictiveRoutingEngine.kt:49-55 | the jitter never exceeds the largest change between consecutive samples |
| PredictiveRouting.SteadyPeerNotMarked | app/src/main/java/net/lifenet/core/routing/PredictiveRoutingEngine.kt:38-41 | a peer whose latency never moves by more than 75 ms between heartbeats is never newly marked toxic |
| PredictiveRouting.SwingingLatencyIsToxic | app/src/main/java/net/lifenet/core/routing/PredictiveRoutingEngine.kt:29-55 | samples 0, 200, 0, 200, 0 mark a peer toxic; one steady sample more keeps it toxic; four samples decide nothing |
| PredictiveRouting.PredictiveRoutingEngine.constructor | app/src/main/java/net/lifenet/core/routing/PredictiveRoutingEngine.kt:12-16 | no history, no toxic peer |
| PredictiveRouting.PredictiveRoutingEngine.HistoryOf | app/src/main/java/net/lifenet/core/routing/PredictiveRoutingEngine.kt:22 | an unknown peer has an empty history |
| PredictiveRouting.PredictiveRoutingEngine.RecordLatency | app/src/main/java/net/lifenet/core/routing/PredictiveRoutingEngine.kt:21-27 | the peer's window becomes `Appended` of the old one (at most ten), and the peer is in the toxic set exactly when `Verdict` says so |
| PredictiveRouting.PredictiveRoutingEngine.AnalyzeNodeHealth | app/src/main/java/net/lifenet/core/routing/PredictiveRoutingEngine.kt:29-47 | the toxic set gains or loses only this peer, as `Verdict` decides |
| PredictiveRouting.PredictiveRoutingEngine.CalculateJitter | app/src/main/java/net/lifenet/core/routing/PredictiveRoutingEngine.kt:49-55 | the summing loop computes `Jitter` |
| PredictiveRouting.PredictiveRoutingEngine.IsNodeReliable | app/src/main/java/net/lifenet/core/routing/PredictiveRoutingEngine.kt:60-62 | reliable exactly when not toxic |
| PredictiveRouting.PredictiveRoutingEngine.GetToxicNodesCount | app/src/main/java/net/lifenet/core/routing/PredictiveRoutingEngine.kt:64 | the number of toxic peers; when it is 0 every peer is reliable |
| GatewayNodeSelector.Confidence | app/src/main/java/net/lifenet/core/mesh/engine/GatewayNodeSelector.kt:26 | `(recentPackets / 100f).coerceIn(0f, 1f)`: in [0, 1]; at least 0.6 exactly from 60 packets and at least 0.8 exactly from 80 |
| GatewayNodeSelector.Evaluate | app/src/main/java/net/lifenet/core/mesh/engine/GatewayNodeSelector.kt:21-36 | a node becomes or stays gateway exactly when it was one or has been evaluated ten times with confidence at the threshold (0.6 above congestion 85, else 0.8); a refusal counts one more evaluation, wrapping at 32 bits |
| GatewayNodeSelector.NoGatewayBeforeTen | app/src/main/java/net/lifenet/core/mesh/engine/GatewayNodeSelector.kt:29-33 | the first ten evaluations never elect and each counts one |
| GatewayNodeSelector.EleventhCallElects | app/src/main/java/net/lifenet/core/mesh/engine/GatewayNodeSelector.kt:29-31 | after ten evaluations one with enough traffic elects the node |
| GatewayNodeSelector.GatewayIsSticky | app/src/main/java/net/lifenet/core/mesh/engine/GatewayNodeSelector.kt:29-33 | once a gateway, no later evaluation demotes the node |
| GatewayNodeSelector.CounterWraps | app/src/main/java/net/lifenet/core/mesh/engine/GatewayNodeSelector.kt:32 | a refusal at Int.MAX_VALUE wraps the counter to Int.MIN_VALUE |
| GatewayNodeSelector.IsAllowedInterCluster | app/src/main/java/net/lifenet/core/mesh/engine/GatewayNodeSelector.kt:42-44 | true exactly for SOS (0x01) and ASTRA heartbeat (0x02) packets |
| GatewayNodeSelector.GatewayNodeSelector.constructor | app/src/main/java/net/lifenet/core/mesh/engine/GatewayNodeSelector.kt:13-15 | confidence 0, no evaluations, not a gateway |
| GatewayNodeSelector.GatewayNodeSelector.EvaluateGatewayStatus | app/src/main/java/net/lifenet/core/mesh/engine/GatewayNodeSelector.kt:21-36 | the fields become `Evaluate` of the old fields; the result is the new gateway flag |
| IdmpHandover.Decide | app/src/main/java/net/lifenet/core/mobility/IdmpHandoverManager.kt:18-31 | PREFER_WIFI exactly when Wi-Fi is above -70 dBm and the node is not on Wi-Fi already; STABLE_BLE exactly when Wi-Fi is below -85 dBm and it is; never POWER_SAVE; never the current strategy |
| IdmpHandover.DeadBand | app/src/main/java/net/lifenet/core/mobility/IdmpHandoverManager.kt:18-31 | between -85 and -70 dBm nothing is ever decided |
| IdmpHandover.SettlesAfterOneHandover | app/src/main/java/net/lifenet/core/mobility/IdmpHandoverManager.kt:18-36 | after executing a decision, the same signals decide nothing more |
| IdmpHandover.NeverPowerSave | app/src/main/java/net/lifenet/core/mobility/IdmpHandoverManager.kt:18-36 | a node following the decisions never enters POWER_SAVE unless it started there |
| IdmpHandover.LastStrongReadingWins | app/src/main/java/net/lifenet/core/mobility/IdmpHandoverManager.kt:21-23 | whatever came before, a strong Wi-Fi reading leaves the node on Wi-Fi |
| IdmpHandover.IdmpHandoverManager.constructor | app/src/main/java/net/lifenet/core/mobility/IdmpHandoverManager.kt:16 | the strategy starts STABLE_BLE |
| IdmpHandover.IdmpHandoverManager.DetermineHandover | app/src/main/java/net/lifenet/core/mobility/IdmpHandoverManager.kt:18-31 | `Decide` on the current strategy |
| IdmpHandover.IdmpHandoverManager.ExecuteHandover | app/src/main/java/net/lifenet/core/mobility/IdmpHandoverManager.kt:33-36 | the strategy becomes the new one |
| ClusterAssignment.StringHash | app/src/main/java/net/lifenet/core/mesh/engine/ClusterAssignmentEngine.kt:17 | `String.hashCode()`: a 32-bit Int; a one-character string hashes to its code |
| ClusterAssignment.JvmAbs | app/src/main/java/net/lifenet/core/mesh/engine/ClusterAssignmentEngine.kt:21 | Kotlin's `abs` on Int: the magnitude, except that Int.MIN_VALUE stays Int.MIN_VALUE |
| ClusterAssignment.ChannelForHashAsWritten | app/src/main/java/net/lifenet/core/mesh/engine/ClusterAssignmentEngine.kt:16-22 | one channel: 1; otherwise in 1 .. total for every hash except Int.MIN_VALUE |
| ClusterAssignment.MinHashLeavesRange | app/src/main/java/net/lifenet/core/mesh/engine/ClusterAssignmentEngine.kt:21 | the hash Int.MIN_VALUE with three channels gives channel -1 |
| ClusterAssignment.GetAssignedChannelAsWritten | app/src/main/java/net/lifenet/core/mesh/engine/ClusterAssignmentEngine.kt:16-22 | as written: in 1 .. total unless the id hashes to Int.MIN_VALUE |
| ClusterAssignment.AssignedChannelOutOfRange | app/src/main/java/net/lifenet/core/mesh/engine/ClusterAssignmentEngine.kt:16-22 | an id hashing to Int.MIN_VALUE is assigned channel -1 in a three-channel mesh |
| ClusterAssignment.PolygenelubricantsHashesToMin | app/src/main/java/net/lifenet/core/mesh/engine/ClusterAssignmentEngine.kt:16-22 | the real id "polygenelubricants" hashes to Int.MIN_VALUE and is assigned channel -1 in a three-channel mesh |
| ClusterAssignment.ChannelForHash | app/src/main/java/net/lifenet/core/mesh/engine/ClusterAssignmentEngine.kt:16-22 | corrected: always in 1 .. total |
| ClusterAssignment.CorrectionAgrees | app/src/main/java/net/lifenet/core/mesh/engine/ClusterAssignmentEngine.kt:21 | the correction changes no hash except Int.MIN_VALUE |
| ClusterAssignment.EveryChannelReachable | app/src/main/java/net/lifenet/core/mesh/engine/ClusterAssignmentEngine.kt:21 | every channel 1 .. total is assigned to some hash |
| ClusterAssignment.GetAssignedChannel | app/src/main/java/net/lifenet/core/mesh/engine/ClusterAssignmentEngine.kt:16-22 | always in 1 .. total (1 for a single channel) and equal to the as-written channel for every id not hashing to Int.MIN_VALUE |
| ClusterAssignment.IsPeerInMyCluster | app/src/main/java/net/lifenet/core/mesh/engine/ClusterAssignmentEngine.kt:27-31 | compares the corrected `GetAssignedChannel` of both ids, not the as-written one: ids with equal hashes, or any ids in a one-channel mesh, share a cluster |
| ClusterAssignment.ClusterIsEquivalence | app/src/main/java/net/lifenet/core/mesh/engine/ClusterAssignmentEngine.kt:27-31 | sharing a cluster is reflexive, symmetric and transitive |

## Left out

- `LifenetMode.kt` is not part of this model. The core uses only `DAILY` and `DISASTER`, so `MeshTypes.Mode` has exactly those two values.
- Floating point: `Float`/`Double` values are exact `real`s. This covers telemetry averages, stability scores, battery percentages, gateway confidence and jitter. Rounding is not modelled; `Math.ceil` on a Double is replaced by exact integer ceiling division.
- Long and Int overflow of timestamps and sums is not modelled: `now - startTime`, `now + ttl`, the Long `totalDiff` of the jitter, the LMTP `index + segmentSize`, and the fragmenter's Int `i * (mtuSize - 17)` and `start + (mtuSize - 17)`. Wrap-around is modelled where it changes behaviour: hop counts, TTL bytes, the gateway counter, `String.hashCode` and `abs`.
- The clock, `Log`, `MetricCollector`, Android `Handler`/`Looper`, broadcast receivers and intents are not part of this model. Time is a `now` parameter, and a posted `Runnable` is a pending delay that `RunPosted` executes.
- Concurrency: locks, `synchronized`, `ConcurrentHashMap`, `AtomicBoolean` and coroutines are modelled as sequential calls.
- `PacketRouter.PacketRouter.OnReceivePacket`: the `String(bytes)` UTF-8 decode is a `decode` function parameter, not a model of UTF-8.
- CRC32 in `Fragmenter.Fragmentate` is a function parameter. The `Crc32` module gives the reference bitwise CRC-32 and proves its standard check value, but it is not plugged into the fragmenter, to keep proofs small.
- `MessageEnvelope.fromBinary` is not modelled: it draws a random UUID and reads the clock. `toBinary` only returns the payload. The router works on envelopes directly.
- The `LinkedHashMap` iteration order (the forwarding LRU, the assembler's fragments and sessions) is a sequence of entries in iteration order.
- `Assembler`: when FEC recovers a short last chunk, the chunk comes back zero-padded to the parity length, so the assembled payload has trailing zeros. `Assembler.RecoveryFills` states what is recovered. `Assembler.FecRoundTrip` states the whole round trip: the payload followed by exactly that many zeros. No correction is proposed, because the fragment header carries no payload length.
- `FrequencyHopping`: the unused `minChannels` parameter and the analyzer reference are left out. The stability score and the epoch are inputs.
- `AdaptivePowerManager`: the battery broadcast receiver, the percentage computed from intent extras, and `stop()` are left out. The percentage is an input.
- `PriorityMessageQueue`: the `java.util.PriorityQueue` heap is a multiset. Which of several equal-priority messages `poll` returns is not modelled; any maximum-priority element is allowed.
- `AstraController`: each `StateFlow` is a field; the statuses published in between (ACTIVATING, DEACTIVATING) are returned as a sequence. The `Context` and `Log` calls are left out.
- Singletons (`TrustScoreEngine`, `ContactManager`, `ModeManager.getInstance`) are classes with one instance per caller. Listeners are identified by an id.
- `Forwarding.ForwardingEngine.constructor` requires a non-negative capacity, since `LinkedHashMap(maxSeenMessages, 0.75f, true)` throws IllegalArgumentException for a negative one; that error path is not modelled.
- `JitterBuffer.Oldest` breaks ties between packets of equal sequence number by arrival order (the first one wins). The source's `java.util.PriorityQueue` returns whichever the heap order gives: after pushing seq 5, 3, 5 and polling twice, the source's second poll gives the later seq-5 packet and the model's the earlier one.
- `JitterBuffer.JitterBuffer.Push` drops the `Oldest` packet on overflow, so among equal sequence numbers it fixes the victim the heap leaves open.
- `JitterBuffer.JitterBuffer.Pop` plays the `Oldest` packet, so among equal sequence numbers it fixes the packet the heap leaves open.
- `JitterBuffer.JitterBuffer.Poll` removes the `Oldest` packet, so among equal sequence numbers it fixes the packet the heap leaves open.
- `JitterBuffer.JitterBuffer.constructor` requires a nonzero frame duration, since the source divides by it.
- `RatchetStateManager.RatchetStateManager.constructor` requires the page size `maxSessions * 192` to fit in an Int.
- `PredictiveRouting.PredictiveRoutingEngine.CalculateJitter` requires at least two samples. Its only caller passes at least five.
- `GatewayNodeSelector`: the `nodeId` and `routeScoreEngine` fields are unused by the source and left out. `consistentPacketCount` counts calls, as written.
- `ClusterAssignment.StringHash`: each `char` is one UTF-16 code unit; surrogate pairs are not modelled separately.
- `IdmpHandover.Decide`: the BLE signal strength is accepted and ignored, as in the source.
- `HybridTransportManager.kt` is used only for its header encode/decode; its radio selection is not part of this model.
- `PacketRouter`'s `activePeerCount` bookkeeping is left out.
- `QoSController`'s `collectRuntimeMetrics` and `logQoSStats` are left out. `DispatchScheduler`'s own synthesized metrics are `DispatchScheduler.SynthMetrics`.
- `KeyCache`'s `CachedKey.equals`/`hashCode` overrides are left out. Entries are compared by value.
- `Fragmenter.Fragmentate` requires a non-empty payload to come with an MTU other than 17. With an MTU of exactly 17, `ceil(n / 0.0).toInt()` is Int.MAX_VALUE and the loop appends empty fragments until the heap runs out (OutOfMemoryError); that run is not modelled.
- `LmtpSegmenter.Fragment` requires a positive segment size for a non-empty payload. With a size of 0, `end == index` and every turn appends an empty segment until the heap runs out (OutOfMemoryError). With a negative size, `index` moves backwards, appending empty segments: the run ends in OutOfMemoryError, or, once `index + segmentSize` wraps (at once for `Int.MIN_VALUE`, whose second turn computes `end = 0`), in an IndexOutOfBoundsException from `sliceArray`. Neither run is modelled.
- `ClusterAssignment.IsPeerInMyCluster` compares the corrected channels. For an id hashing to Int.MIN_VALUE, such as "polygenelubricants", with 3 channels the source's channel is -1 and the model's is 3, so such an id can land in a different cluster than in the source.
- `ContactManager.ParseQr` measures the id in `char`s. Kotlin's `length` counts UTF-16 code units, so an id containing characters outside the Basic Multilingual Plane is measured differently.
- `DispatchScheduler.DispatchScheduler.RequestDispatch` keeps the source's QoS drop branch, but `DispatchScheduler.QosNeverDrops` proves the synthesized DAILY metrics never reach it.
- `Assembler.FecRoundTrip` is stated over the chunk data and the completion and recovery checks (`Decide`). `Fragmenter.DataOfJoined` turns `Fragmenter.Fragmentate`'s contract into its hypotheses, and `Assembler.ReceiveDecides` links `Decide` to a received fragment.

## Findings

| source | as written | input that shows it | evidently intended | confidence | as-written member | corrected member |
|---|---|---|---|---|---|---|
| app/src/main/java/net/lifenet/core/crypto/RatchetStateManager.kt:33-41 | the peer is registered at `nextOffset` before the seed is copied. A seed shorter than 32 bytes then throws in `arraycopy`, so `nextOffset` is not advanced and the next peer gets the same slot | `initializeSession("a", [])` then `initializeSession("b", 32 zero bytes)`: both peers map to offset 0 | a short seed is refused before anything changes, so every peer owns a distinct slot | not executed | RatchetStateManager.ShortSeedSharesSlot | RatchetStateManager.InitializeKeepsSlotsDisjoint |
| app/src/main/java/net/lifenet/core/mesh/engine/ClusterAssignmentEngine.kt:20-21 | `abs(hash) % totalChannels + 1`, where Kotlin's `abs(Int.MIN_VALUE)` is `Int.MIN_VALUE` and `%` truncates | the node id "polygenelubricants", whose `hashCode()` is `Int.MIN_VALUE`, with `totalChannels` 3: channel -1 | a channel in `1..totalChannels` for every id | not executed | ClusterAssignment.AssignedChannelOutOfRange | ClusterAssignment.GetAssignedChannel |
