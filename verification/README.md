# LibSagerNetCore: verified model of the packet path, the session bookkeeping and NAT discovery

This project models the parts of LibSagerNetCore that rewrite packets, share state between
goroutines or decide something from a protocol, and proves what they guarantee:

- **TUN TCP forwarder** (`TcpNat`, `TcpNatRuns`): a packet is rewritten in place so that the kernel
  delivers it to a local listener; a session table keyed by (destination address, source port)
  recovers the flow when the connection is accepted and when the listener answers. The byte-level
  rewrite, the checksums, the table and whole runs with arbitrary removals are covered.
- **UDP and ping replies** (`UdpReply`, `IcmpReply`, `GvisorReply`): replies are built from a saved
  header that is copied into scratch memory, patched, emitted and restored, or from lists of views.
  `OnesComplement` and `IpPacket` hold the checksum arithmetic (section 2 of RFC 1071, section 3 of
  RFC 1624) and the packet formats; the reference for every checksum is the exact integer sum of
  the big-endian words.
- **Read loops** (`SystemTun`, `ScatterRead`): who owns a packet buffer, and what is read where.
- **Sessions, statistics, creation lock** (`SessionCounters`, `Traffic`, `AppTraffics`, `LockKeys`,
  `StampHistory`, `CreationLock`, `CreationCode`, `CreationLimits`, `TableHistory`): goroutines are
  state machines whose steps are single atomic operations, and every interleaving is a run. The
  imperative methods take the statements of one goroutine in source order, with arbitrary
  operations of others in between, and are proved to be such runs; what they do when nobody
  interferes is stated outright.
- **NAT discovery** (`Stun`): the tests of sections 4.3 and 4.4 of RFC 5780 run against a stateful
  NAT and a network that loses, delays and reorders responses.
- **Bounded packet queue** (`PacketQueue`) and **socket owner search** (`Procfs`).

A packet is an `array<Byte>`; Go slices of one packet are the array with bounds, so writes through
one slice are seen through the others. The packet library's header accessors are big-endian field
reads and writes; its checksum functions are modelled as they compute. Device, handler, dialler and
link results, the IPv6 header parser's verdict, clocks and scheduling are parameters. Methods are
proved against specification functions, and what these yield is stated apart from them: on the
bytes of a packet by offset, on the endpoints of what is written, field by field for records.
Check everything with `dafny verify dfyconfig.toml`.

Where the code does not do what one would expect of it, a lemma says exactly when it does:

- two flows that share a session key are confused (`SecondFlowIsTakenForFirst`, `PortIsConfused`),
  and an IPv6 destination of the v4-mapped form is never recovered (`RecoveredExactly`); over whole
  runs a flow is recovered exactly if the first packet of its key since the last removal was its
  own (`RecoveredInRun`), also when the peer is reported in v4-mapped form (`MappedRecoveredInRun`);
- a UDP reply can announce a checksum of 0, also on IPv6 (`ZeroChecksumExactly`,
  `ZeroChecksumHappens`, `GvisorReply.SendUdp`); its length fields are exact up to 65507 bytes of
  payload behind a 20-byte IPv4 header, not up to 65527 (`LengthFieldsAreExact`);
- a UDP reply comes from the address given for it exactly if that has the family's length, and its
  checksum is valid exactly if the given and the emitted address have one sum (`ReplyIsValid`,
  `ReplyChecksumExactly`). A packet from a domain source, whose address the queue makes a 4-byte
  0.0.0.0, therefore reaches an IPv6 client from a mixture of zeros and its own address
  (`ShortSourceIsMixed`), and a 16-byte IPv4 address reaches an IPv4 client as 0.0.0.0
  (`MappedSourceIsLost`). On the gVisor path the condition is the same for what the stack emits,
  and a short address arrives with zeros behind it (`ReceivedExactly`, `ShortAddressIsValid`);
- a datagram is handed over as its UDP header announces it exactly if the two lengths agree
  (`HandedIsUdpDataExactly`);
- the incremental checksum differs from the recomputed one for one kind of header, which a freshly
  recomputed header never is (`IncrementalIsRecomputation`, `IncrementalAfterRecomputation`);
- the IPv4 unreachable branch announces the wrong total length unless two sizes happen to agree
  (`UnreachableLengthExactly`);
- the deactivation stamp can be set while a session is live (`StampMayRace`), exactly if a closer
  drained its counter before that session cleared the stamp and set it after the last clear
  (`StampOnActiveExactly`);
- a goroutine that waits is woken exactly by the broadcast (`WaitsUntilBroadcast`), and one that
  waits after it sleeps forever (`SleepsForever`, `LostWakeupHappens`); a failed dial locks its
  source address out (`FailedDialLocksForever`);
- an app's statistics object is replaced only, and whenever it gets the lock, by a goroutine that
  had missed it (`OnlyTheMissedReplace`, `TheMissedReplace`, `SecondObjectHappens`); a woken
  goroutine panics exactly if the statistics were reset since they were stored (`PanicsExactly`,
  `PanicAfterReset`);
- the end of one connection can take another of the same source, stored over it, out of the table
  (`CloseRemovesAnother`, `OrphanHappens`), which is exactly how a stored connection gets lost, but
  for being stored over (`HeldExactly`);
- NAT discovery breaks off exactly if a response that it reads is longer than what the one read
  before it left of the listener's buffer (`Stun.Discovery.Test`).

## Model

| member | source | states |
|---|---|---|
| OnesComplement.ChecksumIsFold | nat/tcp.go:139-145 | word-by-word end-around-carry accumulation, from any start value and for either parity, is the one representative of the exact integer sum |
| OnesComplement.SplitSum | nat/tcp.go:142-145 | header and payload summed apart, payload first, and combined with further words give the sum of the whole for every even header and any payload parity |
| OnesComplement.StoredChecksumCompletes | nat/tcp.go:139-145 | the complement of the sum, stored in the zeroed field, makes region and further words sum to 0xFFFF |
| OnesComplement.PayloadFirstCompletes | nat/udp.go:69-70 | a header summed after its payload, of either parity, gets a checksum that completes header, payload and pseudo header |
| OnesComplement.SkippedFieldCompletes | gvisor/icmp.go:85-87 | a checksum computed around its own field is that of the message with the field cleared, and completes the message |
| OnesComplement.OnesCongruent | nat/udp.go:70-70 | next to a sum that checks, another positive sum checks if and only if the two agree modulo 0xFFFF |
| OnesComplement.IncrementalIsRecomputation | nat/icmp.go:54-59 | for a valid header the incremental update equals the full recomputation bit for bit if and only if it is not the case 0xFFFF stored, field 0xFFFF going to 0 |
| OnesComplement.IncrementalAfterRecomputation | nat/icmp.go:23-24 | a header whose checksum was just recomputed never meets that exception |
| IpPacket.PseudoHeaderChecksumIsSum | nat/udp.go:70-70 | the chained pseudo header checksum represents the sum of its parts, whatever the lengths of the addresses |
| IpPacket.PseudoHeaderChecksumIsFold | nat/tcp.go:143-143 | for addresses of the family it represents the sum of the standard's layout, for IPv4 and for the different IPv6 layout |
| IpPacket.PseudoHeaderLayout | nat/tcp.go:143-143 | the reference pseudo header by offset: addresses, protocol and length in the layouts of RFC 9293 and RFC 8200 |
| IpPacket.SetHeaderChecksum | nat/tcp.go:139-140 | clearing, summing and storing through a slice changes the checksum field only, to the value of the specification function |
| IpPacket.HeaderChecksumCompletes | nat/tcp.go:139-140 | the header with recomputed checksum sums to 0xFFFF, keeps its length, for every header length, and differs in bytes 10 and 11 alone |
| IpPacket.LayoutOfV4 | nat/tcp.go:102-109 | a packet put together from length byte, total length, addresses, options, ports and rest, at the offsets of RFC 791, has that header and payload length and carries the flow of those endpoints |
| IpPacket.LayoutOfV6 | nat/tcp.go:150-157 | the same for an IPv6 packet at the offsets of RFC 8200 |
| TcpNat.Readdressed | nat/tcp.go:121-136 | after the endpoint writes the packet carries exactly the given flow and differs nowhere but in addresses and ports |
| TcpNat.TcpSumIsFold | nat/tcp.go:142-145 | the three separately computed sums combine to pseudo header plus segment for every even header split and any payload length |
| TcpNat.TcpChecksumCompletes | nat/tcp.go:141-145 | a receiver's check over pseudo header and segment accepts the recomputed TCP checksum |
| TcpNat.RewrittenIsValid | nat/tcp.go:121-147 | a rewritten packet has exactly the new endpoints, valid header and segment checksums, and every byte outside addresses, ports and checksums unchanged |
| TcpNat.TouchedBytes | nat/tcp.go:121-147 | rewriting touches, by offset, the IPv4 header checksum, the addresses, the ports and the TCP checksum, and no other byte |
| TcpNat.EndpointsDetermine | nat/tcp.go:121-136 | endpoint fields and untouched bytes determine the packet, whatever the order of the writes |
| TcpNat.ProcessExactly | nat/tcp.go:102-148 | a packet is written if and only if it is not the listener's or has an entry; it then carries the destination's flow to the listener, or the answer to whom the entry names, with valid checksums; only a first packet opens an entry, with its own source and destination port |
| TcpNat.ClientAddresses | nat/nat.go:22-25 | the kernel sees its peers as 172.19.0.1 and fdfe:dcba:9876::1 |
| TcpNat.PeerIsLookedUp | nat/tcp.go:51-59 | a peer reported in the form ::ffff:a.b.c.d is looked up by its four bytes, every other peer by its address as it is |
| TcpNat.TcpForwarder.ProcessIPv4 | nat/tcp.go:102-148 | table, packet bytes in place and what is written to the device are those of the specification step, for first packets, later packets, replies and replies without a session |
| TcpNat.TcpForwarder.ProcessIPv6 | nat/tcp.go:150-195 | the same for IPv6, without a header checksum |
| TcpNat.TcpForwarder.Dispatch | nat/tcp.go:46-75 | an accepted connection gets the flow its session records, an unknown peer none; a peer in v4-mapped form gets what its four bytes would |
| TcpNat.TcpForwarder.Delete | nat/tcp.go:79-79 | removal after close or expiry takes away exactly one entry |
| TcpNat.SetTcpChecksum | nat/tcp.go:141-145 | the in-place writes leave the packet with exactly the completed TCP checksum |
| TcpNatRuns.EntriesWereSent | nat/tcp.go:110-137 | in every reachable state, under arbitrary removals, each session entry is the 4-tuple of an earlier packet that did not come from the listener |
| TcpNatRuns.AcceptedFlowWasSent | nat/tcp.go:46-83 | every 4-tuple handed to NewConnection is that of a packet really sent |
| TcpNatRuns.DeviceIsExplained | nat/tcp.go:121-147 | every packet ever written has valid checksums and carries a sent flow to the listener or the reverse of a sent flow |
| TcpNatRuns.RecoveredExactly | nat/tcp.go:46-75 | the connection accepted for an outgoing packet is handed over with that packet's flow if and only if the key was free or held this flow and the destination is not v4-mapped |
| TcpNatRuns.EntryPersists | nat/tcp.go:110-119 | no packet changes an existing entry; only a removal of its key does |
| TcpNatRuns.EntryExactly | nat/tcp.go:110-119 | in every run a key has an entry if and only if a packet of it that did not come from the listener was sent since its last removal |
| TcpNatRuns.EntryIsFirst | nat/tcp.go:110-119 | the entry's value is that of the first such packet |
| TcpNatRuns.RecoveredInRun | nat/tcp.go:46-119 | over every run, the connection accepted for a packet is handed over with its flow if and only if the first packet of the key since its last removal, if any, was of the same flow and the destination is not v4-mapped |
| TcpNatRuns.MappedRecoveredInRun | nat/tcp.go:46-119 | the same over every run for an IPv4 packet whose peer a dual-stack listener reports in v4-mapped form, and there without an exception |
| TcpNatRuns.RoundTrip | nat/tcp.go:102-148 | for any events in between that do not remove the entry, the listener's answer to a rewritten packet leaves with exactly the reverse of the original flow, valid checksums and otherwise as the listener sent it |
| TcpNatRuns.SecondFlowIsTakenForFirst | nat/tcp.go:110-119 | any two different flows with one key: the second is handed over as the first |
| TcpNatRuns.PortIsConfused | nat/peer.go:7-15 | so every pair of flows that differ only in destination port is confused |
| BufBuffer.Buffer.ExtendCopy | nat/udp.go:39-39 | the copy lies behind the window's old contents, which stay |
| UdpReply.UdpChecksumCompletes | nat/udp.go:69-70 | payload, pseudo header with the address as given, and UDP header, summed in the code's order, complete to 0xFFFF |
| UdpReply.Emitted | nat/udp.go:58-59 | the source a reply carries, what fits of the given address and then what was there, is the given one if and only if its length is the family's |
| UdpReply.ReplyIsWellFormed | nat/udp.go:58-72 | for a source address of any length a reply that fits has exact lengths, the right ports and destination, that source, a valid header, the payload untouched and all other header bytes as saved |
| UdpReply.ReplyTouches | nat/udp.go:58-70 | no other byte changes, by offset: total or payload length, IPv4 header checksum, source, and the UDP header but its destination port |
| UdpReply.ReplyChecksumExactly | nat/udp.go:68-70 | its UDP checksum is valid if and only if the given and the emitted address have the same sum modulo 0xFFFF |
| UdpReply.ReplyIsValid | nat/udp.go:58-72 | a reply that fits comes from the given endpoint if and only if the address is of the family's length, and then all its checksums are valid |
| UdpReply.LengthFieldsAreExact | nat/udp.go:60-67 | the IP and UDP length fields are both true if and only if the payload is at most 65535 less the headers the length counts |
| UdpReply.MappedSourceIsLost | nat/udp.go:50-70 | an IPv4 reply given a 16-byte v4-mapped address claims to come from 0.0.0.0, and its checksum is valid if and only if the address's own four bytes sum to 0 modulo 0xFFFF |
| UdpReply.ShortSourceIsMixed | nat/udp.go:120-136 | an IPv6 reply given a 4-byte address claims to come from these bytes and the client's own last 12, and its checksum is valid if and only if those 12 sum to 0 modulo 0xFFFF |
| UdpReply.ZeroChecksumExactly | nat/udp.go:68-70 | the emitted checksum is 0 if and only if the exact sum is represented by 0xFFFF |
| UdpReply.ZeroChecksumHappens | nat/udp.go:135-136 | every even-length payload can be completed by one word so that the checksum is 0 |
| UdpReply.Replier.constructor | nat/udp.go:29-36 | the headers of a packet already turned towards its sender become the template |
| UdpReply.Replier.ReplyEndpoints | nat/udp.go:50-72 | a reply without an address carries the reverse of the original flow, one with an address the flow from there to the original sender, with exact lengths and valid checksums if the address is of the family's length |
| UdpReply.Replier.WriteBack | nat/udp.go:37-79 | the datagram written carries the reverse of the original flow if no address is given, and else the flow from that address and port to the original sender; template and buffer indices are restored, also when the device fails |
| UdpReply.Replier.Head | nat/udp.go:39-70 | the header patched in a copy behind the template is the reply's, and the template in front stays |
| UdpReply.Replier.RepliesCarry | tun.go:445-452 | every reply of a DNS session, and every one to a packet without an address, carries the reverse of the original flow; every other one the address and port of its own packet |
| UdpReply.Replier.ReadLoop | tun.go:440-457 | over any sequence of packets the i-th datagram written carries the i-th payload and, in a DNS session or without an address, the reverse of the original flow, else the flow from that packet's own address; the loop stops at the first refusal |
| IcmpReply.TurnedIsValid | nat/icmp.go:20-24 | the turned request has exchanged addresses, the same message and a valid header |
| IcmpReply.IcmpValidIs | nat/icmp.go:151-155 | the reference ICMP check covers the pseudo header of protocol 58 for IPv6, and the message alone for IPv4 |
| IcmpReply.AnswerIsValid | nat/icmp.go:76-81 | a refused ping is answered with exchanged addresses, same code, identifier, sequence number and data, and valid IP and ICMP checksums |
| IcmpReply.AnswerBytes | nat/icmp.go:76-81 | by offset: the addresses change places, the type is 0 or 129, and of all other bytes only the two checksums change |
| IcmpReply.RelengthedIsRecomputed | nat/icmp.go:54-59 | the saved header with incrementally updated checksum is, byte for byte, the header recomputed for its new length, for every old and new length |
| IcmpReply.ForwardIsValid | nat/icmp.go:43-64 | a forwarded reply that fits has exact lengths, exchanged addresses, valid header; IPv6 messages are resealed and change in their checksum only |
| IcmpReply.OutgoingExactly | nat/icmp.go:43-50 | a message goes out as it is unless its type is 3 or 1; then its first four bytes go out, what the scratch memory holds behind them, and the quoted request |
| IcmpReply.UnreachableLengthExactly | nat/icmp.go:44-57 | the IPv4 unreachable packet announces its true length if and only if the received message, or the request, happens to be as long as the rebuilt message |
| IcmpReply.UnreachableGoesBack | nat/icmp.go:44-62 | whatever length it announces, the IPv4 unreachable packet goes from the request's destination to its source and carries the rebuilt message |
| IcmpReply.PingReplier.constructor | nat/icmp.go:26-33 | the scratch buffer holds the turned header and behind it the header with up to 8 bytes of the request |
| IcmpReply.PingReplier.WriteBack | nat/icmp.go:36-73 | what is written is the forwarded message; saved header, quoted request and buffer window are restored |
| IcmpReply.TurnInPlace | nat/icmp.go:20-24 | the in-place writes are the turning |
| IcmpReply.AnswerInPlace | nat/icmp.go:151-157 | the in-place writes are the answer |
| SystemTun.SavedHeader | nat/udp.go:29-36 | the turned datagram's headers are a valid reply template and the payload behind them is untouched |
| SystemTun.SentBackBytes | nat/udp.go:29-30 | of a datagram sent back, destination address and port are the source's, and every other byte stays |
| SystemTun.HandedIsUdpDataExactly | nat/udp.go:36-37 | what is handed over is the payload that the UDP header announces if and only if its length field equals the IP payload length, which the code never compares |
| SystemTun.ReadableExactly | nat/nat.go:92-126 | on the bytes: which IPv4 and IPv6 packets, by version, protocol number and length fields, the loop is given to read |
| SystemTun.MeaningV4 | nat/nat.go:93-103 | on the bytes of an IPv4 packet: protocol 6 is the forwarder's, 17 a datagram with the endpoints at offsets 12, 16 and behind the header, 1 with type 8 and code 0 a ping that is taken or answered; everything else means nothing |
| SystemTun.MeaningV6 | nat/nat.go:104-124 | the same for an IPv6 packet with the protocol that the parser finds: 6, 17, or 58 with type 128 and code 0 |
| SystemTun.Tun.SendBack | nat/udp.go:29-30 | the in-place writes turn the datagram towards its sender and nothing else |
| SystemTun.Tun.ProcessUdp | nat/udp.go:12-37 | the handler gets everything behind the UDP header and the packet's flow, the replier the turned headers |
| SystemTun.Tun.TurnRound | nat/icmp.go:20-35 | an echo request is turned in place, its header saved for replies, and the buffer left at the message |
| SystemTun.Tun.ProcessIcmp | nat/icmp.go:12-82 | the buffer is kept if and only if the packet is an echo request that the handler takes; then it holds exactly the ICMP message, otherwise an echo request is answered |
| SystemTun.Tun.DeliverPacket | nat/nat.go:92-126 | the buffer is retained exactly for a datagram or a taken ping, and then holds exactly its payload or message; a TCP packet is one step of the forwarder's run, a refused ping is answered, and nothing else is written |
| SystemTun.Tun.DispatchLoop | nat/nat.go:55-77 | over all reads, hand-overs are exactly those the packets call for, every buffer in a handler's hands still holds its bytes at the end, and no two share memory; the forwarder has run on exactly the TCP packets read, in order, and exactly the refused pings are answered |
| SystemTun.Tun.ReadPacket | nat/nat.go:64-76 | the next read goes into the same buffer only if no handler has it |
| ScatterRead.ConfiguredTotal | gvisor/dispatchers.go:15-15 | the configured row takes packets of up to 65664 bytes |
| ScatterRead.OffsetFewest | gvisor/dispatchers.go:59-66 | the prefix found is the shortest that is long enough |
| ScatterRead.GatheredPrefix | gvisor/dispatchers.go:129-138 | views that hold a packet's consecutive stretches concatenate to the packet |
| ScatterRead.IovecBuffer.NextIovecs | gvisor/dispatchers.go:42-54 | missing buffers, always a prefix, are replaced by fresh ones; the waiting ones stay |
| ScatterRead.IovecBuffer.Search | gvisor/dispatchers.go:58-61 | the loop finds the first buffer up to which the row holds n bytes |
| ScatterRead.IovecBuffer.PullViews | gvisor/dispatchers.go:56-72 | a prefix of n bytes is handed on, its last view capped, none of its buffers handed on before; the rest stays |
| ScatterRead.IovecBuffer.Dispatch | gvisor/dispatchers.go:129-138 | what is handed on is exactly the packet in the fewest buffers, all distinct and new to the stack, and no buffer handed on earlier changes |
| ScatterRead.IovecBuffer.DispatchLoop | gvisor/dispatchers.go:129-162 | after any number of reads every packet handed on still holds exactly its bytes |
| GvisorReply.ViewsSumUp | gvisor/udp.go:129-131 | summing view by view is summing the concatenation if all views but the last are even |
| GvisorReply.OddViewShifts | gvisor/udp.go:129-131 | two one-byte views sum to their concatenation if and only if the second byte is 0 |
| GvisorReply.SumViews | gvisor/udp.go:128-131 | the accumulation loop yields the representative of start value plus all view sums |
| GvisorReply.HeaderCompletes | gvisor/udp.go:128-132 | a header completes itself and what was summed before it, and stores 0 if and only if the sum without it is 0xFFFF |
| GvisorReply.SendUdp | gvisor/udp.go:105-133 | for addresses of any length and any views the segment has the given ports and data, a true length field if and only if the data is at most 65527 bytes, and on IPv6 without offload a checksum that completes the addresses as given, the header and the views one by one, 0 if and only if these sum to 0xFFFF without it; otherwise none |
| GvisorReply.ReceivedExactly | gvisor/udp.go:127-133 | an IPv6 receiver, who sees the address padded or cut to 16 bytes, finds the checksum valid if and only if the differences of the addresses' sums and of the views' sums from their bytes cancel modulo 0xFFFF |
| GvisorReply.ShortAddressIsValid | gvisor/udp.go:85-88 | so a reply from an address that is too short is accepted, and comes from that address followed by zeros |
| GvisorReply.UdpPacket.WriteBack | gvisor/udp.go:70-101 | a payload is sent from the given address, of any length, or the original destination, refused above 65535 bytes or without a route and for nothing else; an IPv6 receiver accepts it if and only if the padded or cut address has the sum of the given one |
| GvisorReply.PseudoHeaderIsSymmetric | gvisor/icmp.go:151-155 | the pseudo header checksum does not depend on which address comes first |
| GvisorReply.SplitIsWhole | gvisor/icmp.go:174-180 | a checksum from an even header view and the data's own checksum is that of the whole message |
| GvisorReply.TurnedIsHeader | gvisor/icmp.go:33-38 | turning the network header view turns the packet |
| GvisorReply.AnsweredInViews | gvisor/icmp.go:85-87 | the answer written into the header view is the answer of the whole packet, to which the validity results apply |
| GvisorReply.EchoRequest.constructor | gvisor/icmp.go:24-44 | the views become the turned request; the quoted start is the request as it came |
| GvisorReply.EchoRequest.Answer | gvisor/icmp.go:172-182 | the packet written is the turned request's answer |
| GvisorReply.EchoRequest.WriteBack | gvisor/icmp.go:129-170 | what is written is the forwarded message of the other path although the checksum is computed with the addresses exchanged; the request's views stay |
| SessionCounters.InvariantHolds | tun.go:251-265 | counters, list and stamp invariants hold in every reachable state of any interleaving |
| SessionCounters.IdleIsStamped | tun.go:258-264 | once every session ever counted has finished closing, the stamp is set and both counters are 0 |
| SessionCounters.CountersAndListAreExact | tun.go:251-265 | in every reachable state the live counters are the sessions between increment and decrement, and the list holds exactly the connections between push and removal, once each |
| SessionCounters.StampMayRace | tun.go:258-261 | a run ends with the stamp set and a session live |
| StampHistory.StampedExactly | tun.go:253-260 | in every run the stamp is set if and only if some session stamped and none cleared since |
| StampHistory.StampIsLastTime | tun.go:259-261 | and it is the time at which the last of them did |
| StampHistory.OvertakenHistory | tun.go:258-260 | a closer that is about to stamp while a session is active drained its counter before that session's clear |
| StampHistory.StampOnActiveExactly | tun.go:253-260 | with a session active, the stamp is set if and only if a closer drained its counter before that session cleared the stamp, and set it after the last clear |
| StampHistory.StampMeansIdle | tun.go:253-260 | in every run in which no clear falls between a closer's drain and its stamp, a set stamp means that no session is active |
| SessionCounters.ListStep | tun.go:256-264 | push and removal keep the list exact and free of duplicates |
| SessionCounters.StampStep | tun.go:258-261 | with both counters at 0 the stamp is set or some session is bound to set it |
| Traffic.TrafficIsConserved | stats.go:94-118 | in every run pending, in-flight and total add up to all bytes carried modulo 2^64, and the total to what the reads accumulated |
| Traffic.ReportedIsCarried | stats.go:110-118 | between reads, what was reported plus what is pending is what was carried, modulo 2^64 |
| Traffic.ExactWithoutWrap | stats.go:149-175 | below 2^64 bytes the same holds without the modulus, and no reported total is ahead of the total |
| Traffic.ExportsAreExact | stats.go:110-118 | below 2^63 bytes every exported number is the value swapped out or got back, and at most what was carried |
| Traffic.BytesCarried | stats.go:127-175 | what is read from a TCP connection or sent over a UDP one counts upwards, what is written to the one or received on the other downwards, a failed UDP operation not at all |
| AppTraffics.Stats.Serve | tun.go:251-265 | a session's statements continue the run by exactly its eight steps, each after what others did before it; that run is admissible if theirs is, and when everyone is quiet then the stamp is set and both counters are 0; alone, it leaves counters and list as they were, adds one to its own total, and stamps its time if nobody was connected |
| AppTraffics.Stats.CountOut | tun.go:258-261 | steps five to seven of exactly that run: decrement, then load, then stamp |
| AppTraffics.Stats.CountIn | tun.go:416-424 | steps one to four of exactly that run: increment, total, wake and push |
| AppTraffics.Stats.Carry | stats.go:149-175 | one operation on the counters is one step of the traffic run: TCP reads and successful UDP writes add to the uplink, TCP writes and successful UDP reads to the downlink, modulo 2^64, and nothing else moves |
| AppTraffics.Stats.Export | stats.go:91-116 | one app's read is the steps of a new reader, each after what others did; the row's four traffic fields are what that reader swapped out and got back, the other fields the object's own; when nobody interferes, they are the pending counters and the new totals, and the counters are 0 |
| AppTraffics.RowIsExact | stats.go:91-118 | with less than 2^63 bytes carried each way no number of a row is negative or wrapped, what is pending is at most the total, and the total at most what was carried until the read was over |
| AppTraffics.AloneKeeps | tun.go:251-265 | a session's steps change no other session |
| AppTraffics.AloneIs | tun.go:251-265 | eight steps without interference change the total of the session's kind and the stamp, and nothing else in the end |
| AppTraffics.ExportIsFiveSteps | stats.go:110-116 | an uninterrupted export is the five steps of a new reader, whatever other readers are doing |
| AppTraffics.QuietRead | stats.go:106-114 | five steps of a reader without interference take all that is pending into the totals and report both |
| AppTraffics.Apps.ReadAppTraffics | stats.go:87-126 | every app gets one row, which is what its read among sessions and other readers made, field by field, and nothing else of it changes; nothing happens with statistics off |
| AppTraffics.Apps.CloseConnections | stats.go:69-85 | the connections closed are the app's list in order, under the 16-bit uid |
| AppTraffics.ClosesEachListedOnce | stats.go:79-84 | each connection between push and removal is on that list exactly once, any other never |
| AppTraffics.Apps.ResetAppTraffics | stats.go:53-67 | every statistics object is forgotten, and only with statistics on |
| LockKeys.KeysNeverCollide | tun.go:464-464 | two lock keys are equal if and only if both ask for the same uid, the same UDP source address and port, or the same pair of ping addresses |
| LockKeys.LastColon | tun.go:273-273 | the UDP key determines address and port although IPv6 text holds colons |
| CreationLock.InvariantHolds | tun.go:273-308 | lock, follower, round and table invariants hold in every reachable state |
| CreationLock.OneOwnerPerKey | tun.go:297-308 | at most one goroutine per key is between winning LoadOrStore and deleting the entry |
| CreationLock.EntryIffOwned | tun.go:437-437 | a lock entry exists if and only if such an owner, or one that gave up after a failed dial, exists |
| CreationLock.UdpWokenAfterStore | tun.go:433-438 | a UDP goroutine is woken only after the connection of its own source address and port was stored |
| CreationLock.NoPanic | tun.go:229-250 | in every run in which an app's statistics are not reset, no goroutine of that app reaches the panic, and stored statistics stay |
| CreationLock.WokenFindsStats | tun.go:236-241 | a woken goroutine finds the statistics stored |
| CreationLock.LocksStep | tun.go:297-308 | every step keeps lock entries and owners in one-to-one correspondence |
| CreationLock.FollowersStep | tun.go:299-305 | every follower's condition belongs to a winner of its key, and only that winner's broadcast wakes it |
| CreationLimits.SleepsForever | tun.go:234-235 | a goroutine that reaches its wait after the broadcast sleeps in every continuation |
| CreationLimits.WaitsUntilBroadcast | tun.go:234-248 | one that waits before the broadcast is waiting, in every continuation, if and only if the broadcast has not come |
| CreationLimits.LostWakeupHappens | tun.go:231-235 | a run leads to such a sleeper |
| CreationLimits.FailedDialLocksForever | tun.go:385-389 | after a failed dial, in every continuation, the entry stays, no other round of that source creates a connection, and no round waiting for it is woken |
| CreationLimits.FoundStays | tun.go:225-226 | once an app's statistics are stored, and unless reset, every round that has not missed them, begun or not, gets them at its first load, in every continuation |
| CreationLimits.OnlyTheMissedReplace | tun.go:227-248 | in every continuation without a reset the statistics stay, and another object takes their place only from a round that had missed them before |
| CreationLimits.TheMissedReplace | tun.go:229-247 | every round that had missed them does put its own object there in the two steps after the lock is free |
| CreationLimits.SecondObjectHappens | tun.go:227-248 | such a replacement happens in a run from the start |
| CreationLimits.PresentExactly | tun.go:245-247 | in every run an app's statistics are in the table if and only if they were stored and not reset since |
| CreationLimits.PanicsExactly | tun.go:236-239 | a woken goroutine panics at its next load if and only if its app's statistics were reset after they were last stored |
| CreationLimits.PanicAfterReset | stats.go:53-67 | such a run exists: with a reset between broadcast and load the panic is reached |
| TableHistory.HoldsExactly | tun.go:433-460 | in every run a key of a table holds an object if and only if it was stored there and no other store and no removal of the key came since |
| TableHistory.StoresOnce | tun.go:433-433 | a round stores its object at most once |
| TableHistory.HeldExactly | tun.go:433-460 | so a stored connection is in the table exactly as long as nothing was stored over it and the key was not removed, by whichever connection's end |
| TableHistory.CloseRemovesAnother | tun.go:459-460 | the end of a read loop removes the connection that a late round stored over its own, although that one stays open |
| TableHistory.OrphanHappens | tun.go:433-460 | a run leads there for every source address and port |
| CreationCode.KeepsAdmissible | tun.go:227-250 | a continuation of a run by a round and others is admissible, and spares an app from resets, if the run and the others do |
| CreationCode.Tables.GetStats | tun.go:227-250 | from any reachable state the statements continue the run by the round's steps and the others' operations, each way out matches the round's phase, and without a reset of the app there is no panic; alone, the table gets the app's new object if it had none and nobody holds the lock, and the locks are as before |
| CreationCode.Tables.NewConnection | tun.go:225-250 | the same for a TCP connection from its start; the continued run stays admissible and free of resets if the others are, and then it never panics |
| CreationCode.Tables.Dial | tun.go:291-389 | a UDP packet finds a connection, waits, or owns its key and has dialled; aborted only if dialling failed |
| CreationCode.Tables.Create | tun.go:393-438 | the half after a successful dial: connection stored, statistics first if the packet has an app, lock entry deleted; it is stuck only while it waits for statistics |
| CreationCode.Tables.StoreCounted | tun.go:393-438 | the statistics round inside and then store, delete and broadcast, as a continuation by these two rounds and the others; it is stuck only while the inner round waits, and panics only with it, not without a reset |
| CreationCode.Tables.NewPacket | tun.go:272-438 | the same for a UDP packet, as a continuation by the steps of its own round and the one for statistics inside: released only if the dial succeeded, aborted only if it failed, and without a reset of its app it never panics; alone, it finds the connection of its "address:port", waits for the lock, or dials and stores it with its app's statistics, and leaves its lock entry only after a failed dial or while it waits for statistics |
| CreationCode.Tables.NewPingPacket | tun.go:463-541 | the same for a ping: it is refused only when no handler was found, the entry is deleted and broadcast either way, and it never panics; alone, a connection is stored under "source-destination" if and only if there was none, nobody holds the lock and a handler is found |
| CreationCode.Tables.Route | tun.go:502-540 | the half of a ping after winning the lock: stored if there is a handler, released either way |
| CreationCode.Tables.Await | tun.go:299-305 | the waiting part: blocked, got the object, or panicking exactly when statistics are missing at the second load |
| CreationCode.Tables.Broadcast | tun.go:438-438 | exactly the rounds that wait on the condition are woken |
| Stun.SeenFrom | stun/stun.go:107-151 | two contacts see one outside endpoint if and only if they are of one inside endpoint and the mapping class joins their destinations |
| Stun.NumberIs | stun/stun.go:40-46 | the results 2, 3 and 4 stand for the three classes, from the most to the least permissive |
| Stun.ShownIsClass | stun/stun.go:184-217 | responses from changed endpoints show the filtering class if and only if the inside endpoint has not sent to where they come from |
| Stun.Discovery.Receive | stun/stun.go:349-371 | a response is read if it fits what the responses before it left of the buffer; otherwise the channel closes |
| Stun.Discovery.RoundTrip | stun/stun.go:315-339 | a response is the request's own answer or an earlier late one, passed the NAT's filter and fits; otherwise timeout or broken channel, and the latter for a timely answer exactly if it does not fit |
| Stun.Discovery.MappingTests | stun/stun.go:80-157 | whatever is lost, the result is an error or at least as restrictive as the mapping; with every response in time there is a result, and it is exact, if and only if the first response fits the buffer and, behind a NAT, the second is no longer than the first and, unless the mapping is endpoint independent, the third than the second; "no NAT" exactly if the outside endpoint is the socket's own |
| Stun.Discovery.OtherAddressTests | stun/stun.go:113-156 | tests II and III alone, with the late response of test II possibly taken for that of test III, and with the exact condition on the sizes of their responses |
| Stun.Discovery.FilteringTests | stun/stun.go:160-218 | the result is an error or at least as restrictive as what the server's endpoints show; with every response in time there is a result, and it is just that, if and only if the first response and then the one that passes the NAT fit what is left of the buffer |
| Stun.Discovery.ChangedTests | stun/stun.go:184-217 | tests II and III alone: a response that the NAT stops need not fit |
| Stun.Discovery.Test | stun/stun.go:54-77 | with a second inside endpoint that has sent nothing, neither result is more permissive than the NAT; with every response in time there are results, and they are exact, if and only if every response that is read fits; filtering is not tested after an error |
| PacketQueue.QueueInvariant | v2ray.go:276-315 | in every run the queue holds at most 16; delivered and then queued packets are distinct non-empty received buffers in order, each with its own endpoint as source, or the dialled destination if it has none; each non-empty buffer is exactly once delivered, queued or released |
| PacketQueue.SourcesInRun | v2ray.go:298-305 | over every run each packet delivered or queued has its buffer's own endpoint as source, the dialled destination if there is none, and 0.0.0.0 with the same port in place of a domain |
| PacketQueue.ReleasedExactly | v2ray.go:306-312 | in every run a buffer is released if and only if it arrived, not empty, to a full queue, or to a done context with the choice falling that way |
| PacketQueue.NothingDropped | v2ray.go:306-312 | with a live context and room at every arrival nothing is released |
| PacketQueue.FatesStep | v2ray.go:291-313 | every operation keeps each buffer's fate unique |
| PacketQueue.DispatcherConn.Input | v2ray.go:292-312 | the loop body is one step: an empty buffer is skipped, another is queued whenever there is room for it among 16 and the context is live, with its own endpoint as source, or the dialled destination, domains made 0.0.0.0 |
| PacketQueue.DispatcherConn.ReadFrom | v2ray.go:331-344 | the head of the queue, which is a received buffer with its own source, or the end of the stream |
| PacketQueue.DispatcherConn.HandleInput | v2ray.go:276-315 | the receive loop, with readers and cancellation in between, is a run that receives all buffers of the successful reads in order and closes when it ends |
| Procfs.FieldCountsPairs | procfs.go:111-120 | with paired columns adjacent, index less complete pairs is the data field |
| Procfs.ScanColumns | procfs.go:107-136 | the two indices are the data fields of the last such columns, or -1 |
| Procfs.KernelHeader | procfs.go:107-136 | for the header row of /proc/net/tcp the indices are 1 and 7 |
| Procfs.SwappedTwice | procfs.go:80-90 | word-wise byte swapping is an involution |
| Procfs.NativeEndianIp | procfs.go:80-90 | the loop swaps each group of four bytes on a little-endian machine and nothing on a big-endian one |
| Procfs.TextExactly | procfs.go:42-66 | a field matches, ignoring case, if and only if it says in hexadecimal each byte of the address, at its own place or mirrored in its group of four, a colon, and the port, high byte first |
| Procfs.LocalTextIdentifies | procfs.go:44-46 | two address texts match, ignoring case, if and only if address and port are the same |
| Procfs.AtoiReads | procfs.go:67-70 | decimal numbers are read as what they say, signed or not, up to 64 bits |
| Procfs.RowExactly | procfs.go:62-72 | a row matches if and only if both fields are there and the first says this socket; a uid of up to 31 bits is what its digits say |
| Procfs.QueryUid | procfs.go:57-77 | the uid of the first matching row, or -1 if none matches, it is no number, or file or columns are unknown |

## Left out

- TcpNat.TcpForwarder.ProcessIPv4, TcpNat.TcpForwarder.ProcessIPv6: the packet holds its header, at least 18 bytes of TCP header and the announced lengths; slicing a shorter one panics in the code. LRU expiry is an arbitrary removal, also of a session that a lookup just refreshed.
- SystemTun.Tun.DispatchLoop: no IPv6 extension headers; for UDP and ICMP the read length is the length the header announces, and a read fits the buffer (2048 bytes after the first hand-over).
- UdpReply.Replier.WriteBack: the device is a log of packets per component, and a write succeeds or fails as a whole; for the TCP forwarder and the immediate ping answer write failures, which the code ignores, are not modelled.
- IcmpReply.PingReplier.WriteBack: the request packet's memory, which the handler owns by then and the IPv6 closure reads again, is taken as unchanged during a write-back.
- IcmpReply.ForwardIsValid: the contents of the IPv4 unreachable message (its checksum, and four bytes left over in the scratch memory) are modelled but not claimed to be well formed.
- ScatterRead.IovecBuffer.Dispatch: one read fills all its iovecs at once; `views` and `iovecs` are sequence fields, their buffers heap arrays.
- GvisorReply.UdpPacket.WriteBack: whether the stack finds a route and offloads checksums are parameters; the network header that it puts before the segment is not modelled, except that an address is written into a field of zeros.
- SessionCounters.CountersAndListAreExact: 32-bit overflow of the live counters is not modelled; the clock gives any nonzero time.
- Traffic.TrafficIsConserved: `statsConnWrapper.Set`, which overwrites a counter and which nothing here calls, is not modelled.
- AppTraffics.Apps.ReadAppTraffics: while one app is read, sessions and other readers work on its traffic; what sessions do to its connection counters, which are read first, and what happens to other apps meanwhile is not interleaved.
- CreationLock.InvariantHolds: the mutex inside a condition only orders woken goroutines and is left out, so more interleavings are allowed than happen; liveness is not claimed. A dial and the local decisions around it are part of the next operation on shared state.
- CreationCode.Tables.NewPacket: what is sent over a connection, its read loop (UdpReply.Replier.ReadLoop) and the session's counters (AppTraffics.Stats.Serve) are modelled apart.
- LockKeys.KeysNeverCollide: addresses print as hexadecimal digits, dots, colons and brackets, as the address library does it.
- Stun.Discovery.Test: the NAT keeps its mappings for the whole test and never runs out of endpoints; responses are not duplicated; a server that supports the tests answers every request with its origin. Each response is one value: that the listener may overwrite the buffer while a response is still being parsed is not modelled.
- PacketQueue.DispatcherConn.HandleInput: no other goroutine closes the connection during a batch; the code would panic on a send to the closed queue.
- Procfs.QueryUid: text is ASCII; reading the file and splitting rows into fields are parameters.
- `ReadFrom` of `dispatcherConn`, which copies into a caller's slice and truncates, and the writing direction.
- Sniffing, uid lookup, DNS, diallers, configuration, certificates, assets, HTTP and the other wrappers around libraries: no state of their own to prove anything about.
