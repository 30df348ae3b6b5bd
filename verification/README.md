# AirBridge 5G: protocol and limiter verification

A Dafny model of the self-contained packet, protocol and limiter code of AirBridge 5G, with proofs about
all inputs, all runs or all reachable states. `dafny verify dfyconfig.toml` checks the whole project.

| module | what it models |
|---|---|
| Bytes, ByteBuffer, ByteConn, ByteSource | octets, big-endian and 32-bit arithmetic, and the buffers and connections the code uses |
| Checksum, TunPacket | IPv4/TCP packets on the TUN device, in Kotlin and Swift |
| TcpConnection, TcpDelivery, TcpRetransmission, TcpPruning | one user-space TCP connection and every run of its two threads |
| IpRateLimiter | the control plane's sliding-window limiter and its interceptor |
| TokenBucket | the bandwidth limiter |
| Noise, NoiseInterleaving | the Noise upgrade as routines, and both routines interleaved over byte pipes |
| Fragmenter, Relay, UaReader | the traffic fragmenter, the relay loop with its fragmenting writer, the reader that rewrites the first chunk |
| TtlNormalizer | in-place TTL rewriting |
| Mesh, MeshRuns, MeshEvents | the peer and subscriber tables, and every interleaving of the sections under their locks |
| Stun, Socks5 | the STUN response parser, the SOCKS5 handshake on both sides |
| Nonce | the big-endian nonce counter |

Code that changes state is a class or an array method whose contract gives the whole new state as a function of
the old one; the theorems are lemmas about those functions and about runs of them.

Crypto, random numbers, clocks, socket behaviour and the user-agent rewriter are parameters: an oracle, a function
from draw to value, a monotone clock, scripts of read and write outcomes, an arbitrary function.

## What the proofs found

Where code and documentation differ the model follows the code. Each of these has an exact condition or a concrete
input in the table.

- The comment on `Fragment` says the fragments concatenate to the payload. The TLS split does so only when it makes
  one record; what it keeps is the content a TLS reader sees. Because the writer then reports a length other than
  the chunk's, a relay with that strategy stops at the first chunk it changes.
- Trailing fragments after a split record are counted twice.
- `pruneUnacked` gets the client's own sequence number where its comment speaks of an acknowledgement. A client that
  has acknowledged nothing can so empty the retransmission queue.
- clientSeq advances before the socket write, so packets of the other thread can acknowledge the segment in flight;
  after a failed write the FIN acknowledges octets the proxy never got. A client segment that arrives before the
  socket object exists is acknowledged and dropped. Late duplicates go unanswered across the sign boundary.
- A proxy reply with an IPv6 bound address leaves twelve octets in front of the tunnel's data.
- `Wait` never returns for a request above the burst size that the tokens held do not grant, and `SetRate` leaves more
  tokens than the new burst.
- Emitters share a read lock, so two subscribers can see two overlapping emissions in opposite orders.
- A `Connect` can register between the two sections of `Stop`, which then returns nil with that connection open. After
  a `Stop` that timed out, the next `Stop` does nothing; `ConnectedPeers` keeps its value after `Stop`; the reader of a
  replaced connection disconnects the newer one.
- A consumer of the rewriting reader can miss octets if the first underlying read brings data and an error at once.
- The two-step checksum fold on a signed accumulator is wrong from 2^31 on; no payload the code reads gets there.

## Model

| member | source | states |
|---|---|---|
| Checksum.FoldIsResidue | apps/airbridge_5g/android/app/src/main/kotlin/com/airbridge/airbridge_5g/tcp/Tun2Socks.kt:154-161 | folding is reduction modulo 2^16 - 1 with representatives 1 to 65535, for every sum |
| Checksum.StoredComplementVerifies | apps/airbridge_5g/android/app/src/main/kotlin/com/airbridge/airbridge_5g/tcp/Tun2Socks.kt:154-161 | octets holding the complement of their own zero-field sum have one's-complement sum 0xFFFF, for every header, odd lengths included |
| Checksum.StoredComplementUnique | apps/airbridge_5g/android/app/src/main/kotlin/com/airbridge/airbridge_5g/tcp/Tun2Socks.kt:154-161 | no other 16-bit value in the field does, save that 0 and 0xFFFF are one number |
| Checksum.TwoStepsSuffice | apps/airbridge_5g/android/app/src/main/kotlin/com/airbridge/airbridge_5g/tcp/Tun2Socks.kt:158-161 | the straight-line two-step fold equals folding to a fixpoint for every accumulator below 2^32 |
| Checksum.SignedAccumulatorIff | apps/airbridge_5g/android/app/src/main/kotlin/com/airbridge/airbridge_5g/tcp/Tun2Socks.kt:158-161 | with the signed 32-bit accumulator of the code the two steps are right if and only if the sum is below 2^31 |
| Checksum.OddIsPadded | apps/airbridge_5g/android/app/src/main/kotlin/com/airbridge/airbridge_5g/tcp/Tun2Socks.kt:196-201 | an odd number of octets is summed as if a zero octet followed |
| TunPacket.SendTcpPacket | apps/airbridge_5g/android/app/src/main/kotlin/com/airbridge/airbridge_5g/tcp/Tun2Socks.kt:139-209 | what the buffer, the loops with a signed 32-bit accumulator and the two-step fold make of every address, port, number, flag word and payload |
| TunPacket.SentIsCorrectIff | apps/airbridge_5g/android/app/src/main/kotlin/com/airbridge/airbridge_5g/tcp/Tun2Socks.kt:139-209 | for every payload whose TCP length fits sixteen bits that is, octet for octet, the packet of sections 3.1 of RFC 791 and RFC 9293 with both reference checksums, if and only if the sum is below 2^31 |
| TunPacket.SentIsCorrect | apps/airbridge_5g/android/app/src/main/kotlin/com/airbridge/airbridge_5g/tcp/Tun2Socks.kt:139-209 | so it is for every payload of up to 65504 octets, odd lengths included |
| TunPacket.TcpSum | apps/airbridge_5g/android/app/src/main/kotlin/com/airbridge/airbridge_5g/tcp/Tun2Socks.kt:186-204 | the accumulator is the sum of address words, protocol, length and segment words, wrapped to 32 signed bits |
| TunPacket.PacketVerifies | apps/airbridge_5g/android/app/src/main/kotlin/com/airbridge/airbridge_5g/tcp/Tun2Socks.kt:139-209 | both one's-complement sums of the correct packet are 0xFFFF |
| TunPacket.PacketIsReceivedIff | apps/airbridge_5g/android/app/src/main/kotlin/com/airbridge/airbridge_5g/tcp/Tun2Socks.kt:139-209 | a receiver that checks version, lengths and both checksums from the octets of the packet alone accepts it and gets the payload if and only if the total length fits its field, that is, up to 65495 octets |
| TunPacket.FixedFields | apps/airbridge_5g/android/app/src/main/kotlin/com/airbridge/airbridge_5g/tcp/Tun2Socks.kt:143-181 | in every packet sent: version and header length, total length, no identification, do not fragment, TTL 64, protocol TCP, data offset, window, no urgent data, payload |
| TunPacket.ParseInvertsSend | apps/airbridge_5g/android/app/src/main/kotlin/com/airbridge/airbridge_5g/tcp/Tun2Socks.kt:43-137 | reading an emitted packet gives back every field: addresses and numbers as signed integers, ports modulo 2^16, nine flag bits, payload |
| TunPacket.ParseFields | apps/airbridge_5g/android/app/src/main/kotlin/com/airbridge/airbridge_5g/tcp/Tun2Socks.kt:43-137 | every TCP packet from the client is read field by field, with IP and TCP options of any length |
| TunPacket.ParsedIff | apps/airbridge_5g/android/app/src/main/kotlin/com/airbridge/airbridge_5g/tcp/Tun2Socks.kt:43-137 | which packets are read, which dropped and which end the loop, for all octets |
| TunPacket.OnlyPacketsAreRead | apps/airbridge_5g/android/app/src/main/kotlin/com/airbridge/airbridge_5g/tcp/Tun2Socks.kt:43-137 | and the fields that are read are those of the packet, for all octets |
| TunPacket.ComputeChecksum | apps/airbridge_5g/ios/AirBridgeTunnel/PacketTunnelProvider.swift:227-245 | the Swift loop over words with a loop fold returns the reference complement for every range whose word sum fits the UInt32 accumulator, odd lengths included; a larger sum traps |
| TunPacket.FitsUInt32 | apps/airbridge_5g/ios/AirBridgeTunnel/PacketTunnelProvider.swift:228-240 | every range of up to 131074 octets fits |
| TunPacket.ComputeTcpChecksum | apps/airbridge_5g/ios/AirBridgeTunnel/PacketTunnelProvider.swift:247-260 | prefixing twelve pseudo-header octets gives the reference TCP checksum |
| TunPacket.ImplementationsAgree | apps/airbridge_5g/ios/AirBridgeTunnel/PacketTunnelProvider.swift:227-260 | for every payload whose TCP length fits, summing the pseudo header directly and folding twice (Kotlin) equals summing the prefixed octets and folding in a loop (Swift, Go) if and only if the sum is below 2^31; on an IP header always |
| TcpConnection.Connection.SendAndEnqueue | apps/airbridge_5g/android/app/src/main/kotlin/com/airbridge/airbridge_5g/tcp/Tun2Socks.kt:333-338 | sends with the current numbers and queues exactly packets with data, SYN or FIN |
| TcpConnection.QueuedIffNumbered | apps/airbridge_5g/android/app/src/main/kotlin/com/airbridge/airbridge_5g/tcp/Tun2Socks.kt:333-338 | with any other flags, exactly data, a SYN or a FIN is queued |
| TcpConnection.Connection.PruneUnacked | apps/airbridge_5g/android/app/src/main/kotlin/com/airbridge/airbridge_5g/tcp/Tun2Socks.kt:340-348 | the in-place removal leaves the queue filtered, in order |
| TcpConnection.Prune | apps/airbridge_5g/android/app/src/main/kotlin/com/airbridge/airbridge_5g/tcp/Tun2Socks.kt:340-348 | a segment stays if and only if its number is not below the argument |
| TcpConnection.Connection.CheckRetransmissions | apps/airbridge_5g/android/app/src/main/kotlin/com/airbridge/airbridge_5g/tcp/Tun2Socks.kt:350-358 | every segment older than a second is sent again once and its time updated, in queue order |
| TcpConnection.Resends | apps/airbridge_5g/android/app/src/main/kotlin/com/airbridge/airbridge_5g/tcp/Tun2Socks.kt:350-358 | the retransmitted packets are exactly those of the due segments, with their original number, flags and payload |
| TcpConnection.CheckServesOverdue | apps/airbridge_5g/android/app/src/main/kotlin/com/airbridge/airbridge_5g/tcp/Tun2Socks.kt:350-358 | told from the sent times alone: after a check no segment was last sent more than 1000 ms ago; those that were have been sent once more with their own number, flags and payload, in queue order; the others are as before and nothing else is sent |
| TcpConnection.Connection.RetransmitEarliest | apps/airbridge_5g/android/app/src/main/kotlin/com/airbridge/airbridge_5g/tcp/Tun2Socks.kt:360-367 | at most the head of the queue, if older than 200 ms |
| TcpConnection.FastRetransmitServesHead | apps/airbridge_5g/android/app/src/main/kotlin/com/airbridge/airbridge_5g/tcp/Tun2Socks.kt:360-367 | the head alone is sent, if it was last sent more than 200 ms ago, and nothing within 200 ms of that |
| TcpConnection.Connection.Close | apps/airbridge_5g/android/app/src/main/kotlin/com/airbridge/airbridge_5g/tcp/Tun2Socks.kt:369-376 | one FIN from any state but CLOSED, and none after |
| TcpConnection.Connection.OnClientData | apps/airbridge_5g/android/app/src/main/kotlin/com/airbridge/airbridge_5g/tcp/Tun2Socks.kt:307-331 | the new state in all five branches: in-order data written and acknowledged, a failed write closing, in-order empty, duplicate data, duplicate empty, and data from the future |
| TcpDelivery.ClientStreamIsFaithful | apps/airbridge_5g/android/app/src/main/kotlin/com/airbridge/airbridge_5g/tcp/Tun2Socks.kt:307-331 | for any order and repetition of consistently labelled segments, with the advance of clientSeq, the write and the answer interleaved with the proxy thread, the proxy socket holds a prefix of the client's stream; with the segment in flight it is all that clientSeq counts if and only if no write lost octets |
| TcpDelivery.StartIsFaithful | apps/airbridge_5g/android/app/src/main/kotlin/com/airbridge/airbridge_5g/tcp/Tun2Socks.kt:233-235 | the state after the CONNECT reply satisfies the invariant at position 0, for every pair of initial numbers |
| TcpDelivery.PacketAcknowledges | apps/airbridge_5g/android/app/src/main/kotlin/com/airbridge/airbridge_5g/tcp/Tun2Socks.kt:280-331 | over every run, a packet that either thread sends acknowledges exactly what is on the proxy socket if and only if no segment is in flight and no write of the run has lost octets |
| TcpDelivery.AnswerIsTrue | apps/airbridge_5g/android/app/src/main/kotlin/com/airbridge/airbridge_5g/tcp/Tun2Socks.kt:313-317 | the acknowledgement after a write that returned names exactly what is written |
| TcpDelivery.AcknowledgedBeforeWritten | apps/airbridge_5g/android/app/src/main/kotlin/com/airbridge/airbridge_5g/tcp/Tun2Socks.kt:288-315 | a run in which a PSH-ACK acknowledges an octet not yet written, on a usable socket |
| TcpDelivery.FinOverstatesAfterFailedWrite | apps/airbridge_5g/android/app/src/main/kotlin/com/airbridge/airbridge_5g/tcp/Tun2Socks.kt:311-320 | a run with a failed one-octet write whose FIN acknowledges an octet the proxy never got |
| TcpDelivery.AnsweredIffBehind | apps/airbridge_5g/android/app/src/main/kotlin/com/airbridge/airbridge_5g/tcp/Tun2Socks.kt:308-330 | every segment other than the next one: behind clientSeq, data is acknowledged again and an empty segment has the head of the queue sent again; ahead of it nothing is sent; across the sign boundary it is the other way round |
| TcpDelivery.DuplicateUnanswered | apps/airbridge_5g/android/app/src/main/kotlin/com/airbridge/airbridge_5g/tcp/Tun2Socks.kt:322-326 | a repeated segment across the boundary that gets no answer |
| TcpDelivery.SwallowedIffNoSocket | apps/airbridge_5g/android/app/src/main/kotlin/com/airbridge/airbridge_5g/tcp/Tun2Socks.kt:313-317 | in-order data is acknowledged without being written if and only if the socket object does not exist yet |
| TcpDelivery.WholeStreamIff | apps/airbridge_5g/android/app/src/main/kotlin/com/airbridge/airbridge_5g/tcp/Tun2Socks.kt:280-331 | with segments resent whole in any order and any other steps between them, save a close and a failed write, the proxy has the whole stream, the write under way included, if and only if the order contains 0, 1, .., n - 1 as a subsequence |
| TcpDelivery.ReachedIffSubsequence | apps/airbridge_5g/android/app/src/main/kotlin/com/airbridge/airbridge_5g/tcp/Tun2Socks.kt:307-331 | how far an order leads |
| TcpRetransmission.RunIsTiled | apps/airbridge_5g/android/app/src/main/kotlin/com/airbridge/airbridge_5g/tcp/Tun2Socks.kt:280-367 | over every run, everything sent or queued is a chunk of the proxy's stream at its own place, SYN first |
| TcpRetransmission.EveryPacketIsProper | apps/airbridge_5g/android/app/src/main/kotlin/com/airbridge/airbridge_5g/tcp/Tun2Socks.kt:280-376 | over every run, whichever thread sends: a packet without data has the SYN's number, if it is the SYN, or else the number of what the proxy thread sends next; a FIN is sent exactly when the step closes the connection |
| TcpRetransmission.ProxyStreamIsReassembled | apps/airbridge_5g/android/app/src/main/kotlin/com/airbridge/airbridge_5g/tcp/Tun2Socks.kt:280-367 | for proxy streams shorter than 2^32 octets every data packet, original or retransmission, carries exactly the octets its number labels, and the packets cover the whole stream |
| TcpRetransmission.SameNumberSameBytes | apps/airbridge_5g/android/app/src/main/kotlin/com/airbridge/airbridge_5g/tcp/Tun2Socks.kt:333-367 | equal sequence numbers, equal payloads |
| TcpPruning.QueueInvRun | apps/airbridge_5g/android/app/src/main/kotlin/com/airbridge/airbridge_5g/tcp/Tun2Socks.kt:280-367 | over every run the queued segments follow each other in the proxy's stream without overlap |
| TcpPruning.QueuedUntilNumberAbove | apps/airbridge_5g/android/app/src/main/kotlin/com/airbridge/airbridge_5g/tcp/Tun2Socks.kt:307-348 | over every run, a queued segment is still queued, up to its sent time, if and only if no client segment has arrived whose own number is above it as a signed integer |
| TcpPruning.PruneDropsIff | apps/airbridge_5g/android/app/src/main/kotlin/com/airbridge/airbridge_5g/tcp/Tun2Socks.kt:340-348 | pruning by any number drops exactly the first k segments if and only if those lie below it and the others do not |
| TcpPruning.PruningIsRightIff | apps/airbridge_5g/android/app/src/main/kotlin/com/airbridge/airbridge_5g/tcp/Tun2Socks.kt:307-309 | in every reachable state, a client segment prunes exactly what it acknowledges if and only if its own number is above the highest number acknowledged and not above the lowest that is not; where those stand in the queue, with or without a turn of the signed numbers |
| TcpPruning.AcknowledgedIsPrefix | apps/airbridge_5g/android/app/src/main/kotlin/com/airbridge/airbridge_5g/tcp/Tun2Socks.kt:340-348 | in every reachable state the acknowledged segments are the first ones of the queue |
| TcpPruning.AcknowledgementPrunesRightIff | apps/airbridge_5g/android/app/src/main/kotlin/com/airbridge/airbridge_5g/tcp/Tun2Socks.kt:340-348 | pruning by the acknowledgement itself would be right if and only if it does not fall inside a queued segment |
| TcpPruning.PrunedUnacknowledged | apps/airbridge_5g/android/app/src/main/kotlin/com/airbridge/airbridge_5g/tcp/Tun2Socks.kt:307-309 | a run in which one octet from a client that has acknowledged nothing empties the queue, after which no check resends anything |
| IpRateLimiter.FilterInPlace | core/go/internal/services/grpc_server.go:392-397 | filtering a slice over its own array leaves exactly the later timestamps, in order |
| IpRateLimiter.Limiter.Surviving | core/go/internal/services/grpc_server.go:391-400 | the survivors are copied to a fresh array and no other key's view changes |
| IpRateLimiter.Limiter.Allow | core/go/internal/services/grpc_server.go:385-410 | decision and new map of one call, aliasing included |
| IpRateLimiter.PruningIsInvisible | core/go/internal/services/grpc_server.go:385-410 | over every run on any mix of keys, pruning in place answers exactly as keeping every accepted timestamp for ever |
| IpRateLimiter.NeverMoreThanLimit | core/go/internal/services/grpc_server.go:385-410 | on each key, every half-open interval of one window holds at most `limit` accepted calls |
| IpRateLimiter.RefusedIffFull | core/go/internal/services/grpc_server.go:385-410 | over every run a call is refused if and only if the window that ends with it already holds `limit` accepted calls on its key |
| IpRateLimiter.Intercept | core/go/internal/services/grpc_server.go:412-441 | which limiter calls a request makes and when the handler is reached |
| IpRateLimiter.HandlerIsLimited | core/go/internal/services/grpc_server.go:412-441 | for each address any minute sees at most 60 handled requests and 10 handled imports, although imports use both keys |
| IpRateLimiter.HandledIff | core/go/internal/services/grpc_server.go:412-441 | over every run a request reaches the handler if and only if fewer than 60 of its address were handled in the minute that ends with it and, for an import, fewer than 10 got past the import limiter |
| TokenBucket.RateLimiter.constructor | core/go/internal/proxy/rate_limiter.go:21-34 | an enabled limiter starts full; a rate of zero or less disables it |
| TokenBucket.RateLimiter.RefillNow | core/go/internal/proxy/rate_limiter.go:79-90 | the refill in exact arithmetic, with the fraction kept in the clock |
| TokenBucket.RateLimiter.TryTake | core/go/internal/proxy/rate_limiter.go:58-72 | one pass through the critical section and how long to sleep |
| TokenBucket.RateLimiter.Wait | core/go/internal/proxy/rate_limiter.go:54-76 | whenever it can return, it returns with the tokens taken after at most three sleeps |
| TokenBucket.RateLimiter.SetRate | core/go/internal/proxy/rate_limiter.go:41-51 | changes rate and burst and leaves the tokens |
| TokenBucket.TokensStayInRange | core/go/internal/proxy/rate_limiter.go:54-90 | over every interleaving of callers at a fixed rate, tokens stay between 0 and the burst size, or what was held above it |
| TokenBucket.GrantsArePaid | core/go/internal/proxy/rate_limiter.go:54-90 | grants are paid for out of the credit at the start and what the clock adds |
| TokenBucket.NothingIsWasted | core/go/internal/proxy/rate_limiter.go:54-90 | the other direction: as long as the bucket does not fill, all that was there and all that the clock adds is granted or still there, but for less than one token a pass |
| TokenBucket.GrantedIsBounded | core/go/internal/proxy/rate_limiter.go:54-90 | for every enabled bucket, in any interval of length T the callers together get less than max(tokens, maxBurst) + bytesPerSec * T + 1 bytes |
| TokenBucket.GrantedAfterRateChange | core/go/internal/proxy/rate_limiter.go:41-90 | after a change of rate the tokens held above the new burst count once |
| TokenBucket.WaitIsShort | core/go/internal/proxy/rate_limiter.go:54-76 | a waiter that asks for no more than the burst is short at most three times, if each sleep lasts at least as long as asked |
| TokenBucket.SleepIsNoLonger | core/go/internal/proxy/rate_limiter.go:66-74 | a sleep is no longer than it takes to earn the tokens, unless it is the least one of a millisecond |
| TokenBucket.WaitNeverEnds | core/go/internal/proxy/rate_limiter.go:59-75 | one that asks for more than the burst and is short at first is short for ever |
| TokenBucket.WaitEndsIff | core/go/internal/proxy/rate_limiter.go:54-76 | for every enabled limiter Wait can return if and only if the request is no larger than the burst or the tokens held grant it at once |
| TokenBucket.RateChangeKeepsRange | core/go/internal/proxy/rate_limiter.go:41-51 | a rate change keeps tokens within the burst if and only if the new rate is not below the tokens held |
| Noise.FrameRoundTrip | core/go/internal/handshake/noise_conn.go:235-262 | a frame is read back, and nothing after it touched, if and only if it has 1 to 65535 octets |
| Noise.WriteFrame | core/go/internal/handshake/noise_conn.go:235-245 | two length octets, which hold the length modulo 2^16, and then the data |
| Noise.ReadFrame | core/go/internal/handshake/noise_conn.go:248-262 | exactly the framed data when a whole frame of 1 to 65535 octets has arrived, else nothing |
| Noise.PerformInitiatorHandshake | core/go/internal/handshake/noise_conn.go:152-190 | keys, transcript, octets consumed and octets written, on every input |
| Noise.PerformResponderHandshake | core/go/internal/handshake/noise_conn.go:193-232 | the same for the responder |
| Noise.UpgradeToSecure | core/go/internal/handshake/noise_conn.go:115-149 | the same for either role, and which key sends and which receives |
| Noise.SucceedsOnlyIfLegitimate | core/go/internal/handshake/noise_conn.go:152-232 | against any peer a handshake succeeds only on a transcript of its own messages and accepted ones, having read exactly the peer's frames and written exactly its own |
| Noise.SucceedsIfLegitimate | core/go/internal/handshake/noise_conn.go:152-232 | and on every such transcript whose received messages fit a frame it does succeed |
| Noise.HonestPartiesAgree | core/go/internal/handshake/noise_conn.go:115-232 | two honest parties get the same transcript; the initiator sends with the first key of the split and the responder with the second |
| NoiseInterleaving.StepInv | core/go/internal/handshake/noise_conn.go:152-262 | every step of either routine keeps the invariant that relates both transcripts to what is on the pipes |
| NoiseInterleaving.NoDeadlock | core/go/internal/handshake/noise_conn.go:152-262 | in every reachable state a handshake step is enabled unless both have finished |
| NoiseInterleaving.StepWork | core/go/internal/handshake/noise_conn.go:152-262 | every handshake step leaves less work |
| NoiseInterleaving.RunWork | core/go/internal/handshake/noise_conn.go:152-262 | so every run has boundedly many |
| NoiseInterleaving.EveryInterleavingAgrees | core/go/internal/handshake/noise_conn.go:115-262 | every interleaving with any split of reads and writes can finish, and then both have the same transcript, each sends with the key the other receives with, and the pipes hold exactly the application data |
| NoiseInterleaving.InterleavingIsRoutine | core/go/internal/handshake/noise_conn.go:115-262 | what each party has at the end of any interleaving is what its routine returns when given all octets at once, those left unread included |
| Fragmenter.CheckedConfig | core/go/internal/privacy/fragment.go:91-102 | refuses exactly a maximum below 64, leaves usable configurations alone, makes the rest usable: a minimum of 64 where none is given, never above the maximum |
| Fragmenter.Fragmenter.RandomSize | core/go/internal/privacy/fragment.go:294-304 | a size between the bounds, the maximum when the generator fails |
| Fragmenter.SizeIsUniform | core/go/internal/privacy/fragment.go:294-304 | every size between the bounds is drawn, by exactly one number of the generator's range |
| Fragmenter.Fragmenter.FragmentFixed | core/go/internal/privacy/fragment.go:144-162 | consecutive full-size pieces that join to the payload |
| Fragmenter.Fragmenter.FragmentRandom | core/go/internal/privacy/fragment.go:165-190 | consecutive pieces that join to the payload, each of the size drawn for it, for every sequence of draws; the last may be cut short |
| Fragmenter.Fragmenter.FragmentTLSRecord | core/go/internal/privacy/fragment.go:195-261 | records with the original type and version over consecutive pieces of the body, then plain pieces; trailing pieces counted twice |
| Fragmenter.Fragmenter.SplitRecord | core/go/internal/privacy/fragment.go:216-249 | the loop over the record body, one draw for each record |
| Fragmenter.Fragmenter.Fragment | core/go/internal/privacy/fragment.go:121-141 | pass through, refuse, or the promise of the strategy, with its counters |
| Fragmenter.FixedCount | core/go/internal/privacy/fragment.go:144-162 | a fixed split makes the least number of pieces |
| Fragmenter.SplitRecordsAre | core/go/internal/privacy/fragment.go:195-213 | exactly complete handshake and application-data records are split, whatever stands behind them |
| Fragmenter.SplitPreservesContent | core/go/internal/privacy/fragment.go:195-261 | a reader of TLS records gets the same content octet by octet, with type and version, and the same rest; no fragment exceeds the maximum |
| Fragmenter.SplitReproducesIffOneRecord | core/go/internal/privacy/fragment.go:119-121 | the documented "concatenated, reproduce the original" holds of the TLS split if and only if it made one record |
| Fragmenter.OneRecordIffFirstDrawCovers | core/go/internal/privacy/fragment.go:225-249 | which is if and only if the body is not empty and the first draw covers it |
| Fragmenter.SplitAddsHeader | core/go/internal/privacy/fragment.go:225-249 | a payload whose fragments join to something else: a header more |
| Fragmenter.SplitDropsEmptyRecord | core/go/internal/privacy/fragment.go:225-258 | and one that loses its empty record |
| Fragmenter.CountedOnceIff | core/go/internal/privacy/fragment.go:121-260 | every counter after a call of any strategy; fragments and packets are counted rightly if and only if no split record has anything behind it |
| Fragmenter.TrailingCountedTwice | core/go/internal/privacy/fragment.go:250-260 | two fragments counted as three |
| TtlNormalizer.TTLNormalizer.NormalizePacket | core/go/internal/privacy/ttl.go:133-155 | packet, counters and results of one call; nothing when disabled |
| TtlNormalizer.TTLNormalizer.NormalizeIPv4 | core/go/internal/privacy/ttl.go:158-187 | packet, counters and results on every branch: too short, bad header length, TTL on target already, rewritten |
| TtlNormalizer.TTLNormalizer.NormalizeIPv6 | core/go/internal/privacy/ttl.go:190-208 | a short packet is refused; otherwise the hop limit is counted and, if different, octet 7 alone replaced |
| TtlNormalizer.RecalcIPv4Checksum | core/go/internal/privacy/ttl.go:211-234 | the field gets the reference complement; the fold loop ends and nothing exceeds 32 bits |
| TtlNormalizer.RewriteIsValid | core/go/internal/privacy/ttl.go:158-187 | after a rewrite the header of 20 to 60 octets verifies, the TTL is the target and only octets 8, 10 and 11 differ |
| TtlNormalizer.OnlyTtlChanges | core/go/internal/privacy/ttl.go:133-208 | for every packet of either version: an error exactly when it has no TTL, and which; otherwise the TTL found is returned, the target left there, and nothing else touched but an IPv4 checksum |
| TtlNormalizer.VerifiesAfterIff | core/go/internal/privacy/ttl.go:158-187 | the header verifies afterwards unless the TTL was the target already and the checksum wrong already |
| TtlNormalizer.SecondCallChangesNothing | core/go/internal/privacy/ttl.go:133-208 | normalising twice is normalising once, for every packet of any kind |
| TtlNormalizer.CountersAgree | core/go/internal/privacy/ttl.go:66-92 | modified <= counted TTLs <= IPv4 + IPv6 <= processed is kept by every call |
| TtlNormalizer.CountersFollowPacket | core/go/internal/privacy/ttl.go:133-208 | a packet is counted as modified exactly when its octets changed, and exactly the TTL returned is counted |
| Mesh.MeshService.Start | core/go/internal/mesh/libp2p.go:175-219 | marks the service started, once |
| Mesh.MeshService.Register | core/go/internal/mesh/tcp_listener.go:76-92 | closes the connection being replaced, inserts the new one |
| Mesh.MeshService.FinishConnect | core/go/internal/mesh/libp2p.go:319-341 | the same and one emission to the wildcard subscribers |
| Mesh.MeshService.Disconnect | core/go/internal/mesh/libp2p.go:345-362 | closes and removes, or reports an unknown peer |
| Mesh.MeshService.UpdatePeerLastSeen | core/go/internal/mesh/libp2p.go:581-587 | refreshes a known peer |
| Mesh.MeshService.HealthCheck | core/go/internal/mesh/libp2p.go:442-475 | drops exactly the silent peers without a connection, refreshes the others |
| Mesh.MeshService.Subscribe | core/go/internal/mesh/libp2p.go:388-414 | appends a fresh channel, or refuses |
| Mesh.MeshService.Cancel | core/go/internal/mesh/libp2p.go:401-411 | removes the subscriber's channel in place |
| Mesh.MeshService.EmitEvent | core/go/internal/mesh/libp2p.go:417-439 | a call that nothing interrupts: the topic's and then the wildcard subscribers are offered the emission |
| Mesh.MeshService.Stop | core/go/internal/mesh/libp2p.go:222-275 | state and result of a call that nothing interrupts |
| MeshRuns.NoLeakStep | core/go/internal/mesh/libp2p.go:222-475 | every step keeps the table and the set of open connections equal |
| MeshRuns.ClosedIffRemoved | core/go/internal/mesh/libp2p.go:253-362 | over every run a registered connection is closed if and only if it is not in the table |
| MeshRuns.TableFollowsEvents | core/go/internal/mesh/libp2p.go:278-475 | over every run the entry of a peer, connection and time, is what the events about that peer, the health checks and the Stops leave: a health check drops a peer without a connection that has been silent for more than a minute |
| MeshRuns.ReaderClosesOwnIff | core/go/internal/mesh/tcp_listener.go:97-104 | a failed reader closes its own connection and no other if and only if that one is still in the table |
| MeshRuns.OldReaderClosesNewer | core/go/internal/mesh/tcp_listener.go:76-104 | a run in which the reader of a replaced connection closes the newer one |
| MeshRuns.StopClosesIff | core/go/internal/mesh/libp2p.go:222-275 | with any steps between its two sections, a Stop that did its work leaves everything closed if and only if, for every peer, the last registration or disconnection between them left it without a connection |
| MeshRuns.IdleStopClosesIff | core/go/internal/mesh/libp2p.go:222-228 | a Stop of a service that is not running changes nothing |
| MeshRuns.StartedRun | core/go/internal/mesh/libp2p.go:175-252 | the service is started from a Start to the next Stop, however that ends |
| MeshRuns.LateConnectLeaks | core/go/internal/mesh/libp2p.go:253-272 | a run in which Connect registers between the sections: Stop returns nil and the connection is open |
| MeshRuns.TimedOutStopLeaks | core/go/internal/mesh/libp2p.go:222-252 | after a Stop that timed out the next one leaves a connection open |
| MeshRuns.CounterFollowsTableIff | core/go/internal/mesh/libp2p.go:253-355 | the peer counter follows the table through every step but a Stop that empties it |
| MeshEvents.SendAllOffers | core/go/internal/mesh/libp2p.go:417-439 | each listed channel is offered the emission once |
| MeshEvents.EmitOffers | core/go/internal/mesh/libp2p.go:417-439 | after a call that nothing interrupts exactly the channels meant to see the emission have been offered it, once |
| MeshEvents.InvStep | core/go/internal/mesh/libp2p.go:222-439 | every step, each single send of an emission included, keeps the subscriber invariant |
| MeshEvents.SubscribersAreServed | core/go/internal/mesh/libp2p.go:263-439 | over every run, overlapping emitters included: no send on or second close of a closed channel, every listed channel open, and each subscriber sees only emissions of its topic that began after it subscribed, each at most once, at most 32 waiting, and two in the other order than they began only if they overlapped |
| MeshEvents.CompleteIffNeverFull | core/go/internal/mesh/libp2p.go:417-439 | when no emitter is inside, a listed subscriber has seen exactly the emissions it is meant to see if and only if no send of the run found 32 waiting in its channel |
| MeshEvents.OneLogWithoutOverlap | core/go/internal/mesh/libp2p.go:417-439 | when no emissions overlap one log explains every subscriber, and a listed one sees that log's selection in order if and only if no send found its channel full |
| MeshEvents.ClosedIffStopped | core/go/internal/mesh/libp2p.go:263-414 | over every run a channel is in the table from its subscription until it is cancelled or a Stop closes the table, and it is closed if and only if it was in the table then |
| MeshEvents.OverlapReorders | core/go/internal/mesh/libp2p.go:339-439 | a run of a Connect and a gossip emission that two subscribers see in opposite orders, which no log explains |
| MeshEvents.EmissionAlone | core/go/internal/mesh/libp2p.go:417-439 | the steps of an emission that nothing interrupts are the whole call |
| MeshEvents.ConnectAlone | core/go/internal/mesh/libp2p.go:319-341 | and those of a Connect are its registration and that call |
| Stun.XorTwice | core/go/internal/mesh/nat_traversal.go:258-276 | exclusive or undoes itself at every width |
| Stun.XorZeroAndSelf | core/go/internal/mesh/nat_traversal.go:258-276 | zero changes nothing and a number undoes itself |
| Stun.PortIsMaskedByOctets | core/go/internal/mesh/nat_traversal.go:264-265 | the port is masked by the cookie's first two octets, 21 and 12, octet by octet |
| Stun.ParseAddress | core/go/internal/mesh/nat_traversal.go:213-255 | the offset loop ends, stays inside the message and computes the attribute walk |
| Stun.ParseXorMappedAddress | core/go/internal/mesh/nat_traversal.go:258-276 | the octet loop is the exclusive or with the cookie |
| Stun.ParseInvertsEncode | core/go/internal/mesh/nat_traversal.go:190-255 | for every list of attributes with any padding, parsing the encoded response gives what the list says, errors included |
| Stun.AddressComesBack | core/go/internal/mesh/nat_traversal.go:190-276 | behind any unrelated attributes the encoded address and port come back exactly |
| Stun.MappedAddressComesBack | core/go/internal/mesh/nat_traversal.go:213-293 | and so does a plain MAPPED-ADDRESS |
| Stun.OtherAttributesAreRefused | core/go/internal/mesh/nat_traversal.go:213-293 | no address attribute, a short one and one of another family are errors |
| Stun.OtherDatagramsAreRefused | core/go/internal/mesh/nat_traversal.go:190-221 | and so are short datagrams, other types and a wrong length, exactly |
| Stun.OnlyResponsesGiveAddresses | core/go/internal/mesh/nat_traversal.go:190-293 | an address is read only from a binding response with an address attribute behind unrelated ones, and is what the first of them says |
| Stun.SampleIsRead | core/go/internal/mesh/nat_traversal.go:190-276 | the sample IPv4 response of section 2.2 of RFC 5769 gives 192.0.2.1 and port 32853 |
| Socks5.Server.NegotiateOn | core/go/internal/proxy/socks5.go:355-397 | result, octets consumed and written, and failures counted, on every input |
| Socks5.Server.AuthenticatePassword | core/go/internal/proxy/socks5.go:400-437 | the same for the sub-negotiation |
| Socks5.Server.ReadRequestOn | core/go/internal/proxy/socks5.go:440-494 | the same for the request |
| Socks5.Server.HandleConnection | core/go/internal/proxy/socks5.go:284-352 | the same for the handshake as a whole |
| Socks5.NegotiateInverts | core/go/internal/proxy/socks5.go:355-437 | recovers from any client encoding with a permitted method and credential pair and consumes exactly it |
| Socks5.RequestInverts | core/go/internal/proxy/socks5.go:440-494 | recovers every destination of each address type, consumes exactly the request |
| Socks5.ServeInvertsClient | core/go/internal/proxy/socks5.go:284-530 | the whole handshake recovers the destination, consumes exactly the client's octets, answers as sections 3 to 6 of RFC 1928 say |
| Socks5.DialIsTold | core/go/internal/proxy/socks5.go:333-346 | a permitted client is told success with the bound address, or host unreachable if the dial failed, octet for octet |
| Socks5.SuccessIsToldIff | core/go/internal/proxy/socks5.go:284-346 | over every input the success reply is written if and only if the handshake was accepted and the dial succeeded |
| Socks5.StrangersAreRefused | core/go/internal/proxy/socks5.go:355-437 | a client without a password method or with a wrong password is told so and nothing of its request is read |
| Socks5.OtherRequestsAreRefused | core/go/internal/proxy/socks5.go:440-484 | another command is refused with a reply, another version or address type without |
| Socks5.OtherVersionsAreRefused | core/go/internal/proxy/socks5.go:355-364 | a greeting of another version ends the handshake in silence |
| Socks5.ServeAcceptsOnlyClients | core/go/internal/proxy/socks5.go:284-494 | and a successful handshake means the input was such an encoding |
| Socks5.NeverLooksAhead | core/go/internal/proxy/socks5.go:284-494 | unless the input ends too early, octets that follow change neither result nor output and are left unread |
| Socks5.TunnelReachesDestIff | apps/airbridge_5g/android/app/src/main/kotlin/com/airbridge/airbridge_5g/tcp/Tun2Socks.kt:262-270 | the octets connectToProxy emits lead to the address and port dialled if and only if the server asks for no password |
| Socks5.Tunnel6ReachesDestIff | apps/airbridge_5g/android/app/src/main/kotlin/com/airbridge/airbridge_5g/tcp/Tun2Socks.kt:400-417 | and those of connectIpv6Socks5 |
| Socks5.TunnelDataIsRelayIff | apps/airbridge_5g/android/app/src/main/kotlin/com/airbridge/airbridge_5g/tcp/Tun2Socks.kt:272-291 | behind any proxy, the client's data starts where the relay starts if and only if the bound address in the reply takes up four octets |
| Socks5.TunnelDataFromServer | apps/airbridge_5g/android/app/src/main/kotlin/com/airbridge/airbridge_5g/tcp/Tun2Socks.kt:272-291 | behind this server, whose connection to an IPv4 destination has an IPv4 local address, it does |
| Relay.FragmentingWrite | core/go/internal/proxy/socks5.go:537-554 | what reached the destination is the emitted octets up to the count returned, and what is emitted is the chunk unless it is mangled |
| Relay.WriteAll | core/go/internal/proxy/socks5.go:545-553 | the loop over the fragments and its partial failures |
| Relay.FragmentsEmit | core/go/internal/proxy/socks5.go:537-554 | fragments add up to the chunk if and only if it is not mangled, and always mean the same to a TLS reader |
| Relay.ClientToTarget | core/go/internal/proxy/socks5.go:643-664 | what the loop sent and counted, for any read sizes, errors and short writes; it ends only where the source reports an error, a write fails or the lengths differ |
| Relay.PrefixIsDelivered | core/go/internal/proxy/socks5.go:643-664 | without the TLS split the destination has a prefix of the client's stream, BytesIn grows by its length, the length check never ends the run, and without a write failure all that was read arrived |
| Relay.MismatchIffMangled | core/go/internal/proxy/socks5.go:652-657 | with any strategy, a run without a write failure is ended by the length check if and only if its last chunk was mangled; everything before it arrived unchanged |
| Relay.LongRecordsAreMangled | core/go/internal/proxy/socks5.go:652-657 | a record longer than the maximum fragment always is, a one-octet body never |
| ByteSource.Source.Read | core/go/internal/proxy/socks5.go:647-647 | a read returns the next octets of the stream, any number that fits, possibly with an error |
| UaReader.UaHarmonizingReader.Read | core/go/internal/proxy/socks5.go:564-595 | state, octets and error of one read |
| UaReader.NothingIsLostOrAdded | core/go/internal/proxy/socks5.go:564-595 | returned, pending and unread octets make up the rewritten first chunk and the untouched rest, for every sequence of buffers |
| UaReader.IntendedIs | core/go/internal/proxy/socks5.go:577-590 | the intended stream: what the rewriter makes of the first read's octets, up to 4096, and the rest; the stream as it is where the rewriter fails or leaves nothing |
| UaReader.LaterReadIs | core/go/internal/proxy/socks5.go:565-575 | a later read fills its buffer from what is pending, and with nothing pending is the source's own read, error included |
| UaReader.TruncatedIff | core/go/internal/proxy/socks5.go:564-595 | a consumer that stops at the first error misses octets if and only if the first underlying read returned data with that error and the rewritten chunk did not fit |
| UaReader.Truncated | core/go/internal/proxy/socks5.go:577-594 | a run with a source that returns data together with an error, which io.Reader allows: one of two octets is never read |
| UaReader.StreamIsComplete | core/go/internal/proxy/socks5.go:564-595 | otherwise it gets the intended stream |
| UaReader.DisabledIsIdentity | core/go/internal/proxy/socks5.go:565-575 | without a rewriter the reader changes nothing |
| Nonce.IncrementNonce | core/go/internal/hotpath/hotpath.go:12-19 | the in-place loop, for every width |
| Nonce.IncrementAddsOne | core/go/internal/hotpath/hotpath.go:12-19 | adds one modulo 256^n |
| Nonce.RepeatsIff | core/go/internal/hotpath/hotpath.go:12-19 | two nonces of a run are equal if and only if their distance is a multiple of 256^n |
| Nonce.CycleIsFull | core/go/internal/hotpath/hotpath.go:12-19 | 256^n successive nonces are pairwise distinct and the next is the first |
| Nonce.EveryNonceIsMet | core/go/internal/hotpath/hotpath.go:12-19 | and every nonce of the width occurs |

## Left out

- TokenBucket.RateLimiter.Wait: requires exactly the condition under which the loop can end (WaitEndsIff); the float64 arithmetic of refill is exact here; other callers of the mutex appear only in the run lemmas.
- TunPacket.SentIsCorrectIff: for payloads whose TCP length fits sixteen bits; the code itself reads at most 32767 octets. Above 65495 the IP total length is stored modulo 2^16 and the packet, though it verifies, is not one a receiver can take.
- TunPacket.PacketIsReceivedIff: for flag words below 2^12; larger ones would change the data offset, and the code passes four constants.
- Relay.ClientToTarget: the user-agent rewriter and the rate limiter are off; the opposite direction is the same loop without a fragmenter; a run reads finitely often.
- TcpPruning.AcknowledgementPrunesRightIff: for an acknowledgement and queue on one side of the sign boundary, which with the initial number drawn below 2^30 means proxy streams shorter than 2^30 octets; it is about a call the code does not make.
- Socks5.TunnelDataIsRelayIff: the client's two reads of the replies are taken to be full, as the code takes them to be.
- TcpDelivery.WholeStreamIff: for clients that resend whole segments, without a close or a failed write; the safety theorems allow any re-cutting and both.
- Socks5: the textual form of addresses (an IPv6 destination is printed without brackets before it is dialled), dialling itself, DNS over TLS, write errors on replies.
- TcpConnection: connectToProxy before the CONNECT reply and the timing of its loop guard; the proxy thread may read in more states here than in the code. close and checkRetransmissions are one step each; onClientData is three, and sending, queueing and advancing are separate.
- TunPacket: UDP, DNS and IPv6 packets, and the Swift session code around the checksums. The Swift addresses are kept in memory order, which is network order.
- IpRateLimiter: the mutex (each call is one step) and the peer address lookup.
- Fragmenter: SetEnabled (the configuration is constant) and FragmentWriter, which discards the count the relay's writer returns.
- TtlNormalizer: SetEnabled's atomicity and DetectOS.
- Mesh: the checks Connect makes before it dials; dialling, listening, gossip, bootstrap and NAT loops; waiting for a lock (a step is enabled when its lock is free); subscriber lists are values, so a shared backing array is not modelled.
- Mesh.MeshService.Stop: requires that no other Stop is under way, as its lock ensures, and that the subscriber table is clean, which SubscribersAreServed shows of every reachable state.
- Stun: sockets, retries, NAT classification and hole punching.
- Noise: deadlines and context cancellation; patterns with other than two or three messages, SecureConn's Read and Write, and the ciphers.
- Rate-limited reader and writer, server life cycle, configuration and metrics snapshots: easy members around the ones modelled.
- User interface, platform channels, storage, tracing and gRPC plumbing.
