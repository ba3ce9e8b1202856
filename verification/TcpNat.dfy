/** The system TUN's TCP forwarder: packets are rewritten in place so that the kernel
    delivers them to a local listener, and a session table recovers the original flow. */
module TcpNat {
  import opened Bytes
  import opened OnesComplement
  import opened IpPacket

  const CHECKSUM_OFFSET := 16

  function DataOffset(t: seq<Byte>): nat
    requires |t| >= 13
  {
    (t[12] / 16) * 4
  }

  /** What the forwarder's field accesses and slices need of a TCP packet. */
  predicate TcpPacket(f: Family, p: seq<Byte>) {
    && WellFormed(f, p)
    && PayloadLength(f, p) >= CHECKSUM_OFFSET + 2
    && DataOffset(Transport(f, p)) <= PayloadLength(f, p)
  }

  /** The address the kernel sees as its peer on the TUN network. */
  function Client(f: Family): (a: Address)
    ensures |a| == AddressLength(f)
  {
    if f == V4 then [172, 19, 0, 1]
    else [0xfd, 0xfe, 0xdc, 0xba, 0x98, 0x76, 0, 0, 0, 0, 0, 0, 0, 0, 0, 1]
  }

  // ---- Rewriting one packet ----

  /** Every byte that rewriting may touch: addresses, ports and the two checksums. */
  predicate Rewritable(f: Family, h: nat, k: nat) {
    || InAddresses(f, k)
    || InHeaderChecksum(f, k)
    || h <= k < h + 4
    || h + CHECKSUM_OFFSET <= k < h + CHECKSUM_OFFSET + 2
  }

  predicate Agree(f: Family, p: seq<Byte>, q: seq<Byte>)
    requires WellFormed(f, p)
  {
    |q| == |p| && forall k :: 0 <= k < |p| && !Rewritable(f, HeaderLength(f, p), k) ==> q[k] == p[k]
  }

  lemma AgreeKeepsLayout(f: Family, p: seq<Byte>, q: seq<Byte>)
    requires TcpPacket(f, p) && Agree(f, p, q)
    ensures TcpPacket(f, q) && HeaderLength(f, q) == HeaderLength(f, p) && PayloadLength(f, q) == PayloadLength(f, p)
    ensures DataOffset(Transport(f, q)) == DataOffset(Transport(f, p))
  {
    var h := HeaderLength(f, p);
    SameLayout(f, p, q, CHECKSUM_OFFSET + 2);
    assert Transport(f, q)[12] == q[h + 12] == p[h + 12] == Transport(f, p)[12];
  }

  /** The four endpoint fields written one after the other. */
  lemma EndpointWrites(f: Family, p: seq<Byte>, flow: Flow)
    requires TcpPacket(f, p) && |flow.source| == |flow.destination| == AddressLength(f)
    ensures var h := HeaderLength(f, p);
            var a := SetBytes(SetBytes(p, SourceOffset(f), flow.source), DestinationOffset(f), flow.destination);
            var q := SetU16(SetU16(a, h, flow.sourcePort), h + 2, flow.destinationPort);
            && Agree(f, p, q) && TcpPacket(f, q) && HeaderLength(f, q) == h
            && FlowOf(f, q) == flow
            && forall k | 0 <= k < |p| :: InAddresses(f, k) || h <= k < h + 4 || q[k] == p[k]
  {
    hide SetBytes, SetU16, Transport, DataOffset, Source, Destination;
    var h := HeaderLength(f, p);
    var s := SetBytes(p, SourceOffset(f), flow.source);
    var a := SetBytes(s, DestinationOffset(f), flow.destination);
    var b := SetU16(a, h, flow.sourcePort);
    var q := SetU16(b, h + 2, flow.destinationPort);
    assert Agree(f, p, q);
    AgreeKeepsLayout(f, p, q);
    AddressesWritten(f, p, flow.source, flow.destination);
    SameSource(f, q, a);
    SameDestination(f, q, a);
    assert U16At(q, h) == U16At(b, h);
  }

  lemma AddressesWritten(f: Family, p: seq<Byte>, source: Address, destination: Address)
    requires |p| >= MinimumHeader(f) && |source| == |destination| == AddressLength(f)
    ensures var s := SetBytes(p, SourceOffset(f), source);
            var a := SetBytes(s, DestinationOffset(f), destination);
            Source(f, a) == source && Destination(f, a) == destination
  {
    hide SetBytes;
    var s := SetBytes(p, SourceOffset(f), source);
    SameSource(f, SetBytes(s, DestinationOffset(f), destination), s);
  }

  /** The packet with its four endpoint fields replaced. */
  function Readdressed(f: Family, p: seq<Byte>, flow: Flow): (q: seq<Byte>)
    requires TcpPacket(f, p) && |flow.source| == |flow.destination| == AddressLength(f)
    ensures Agree(f, p, q) && TcpPacket(f, q) && HeaderLength(f, q) == HeaderLength(f, p)
    ensures FlowOf(f, q) == flow
    ensures forall k | 0 <= k < |p| ::
              InAddresses(f, k) || HeaderLength(f, p) <= k < HeaderLength(f, p) + 4 || q[k] == p[k]
  {
    hide SetBytes, SetU16, Transport, DataOffset, FlowOf, Agree;
    EndpointWrites(f, p, flow);
    var h := HeaderLength(f, p);
    var a := SetBytes(SetBytes(p, SourceOffset(f), flow.source), DestinationOffset(f), flow.destination);
    SetU16(SetU16(a, h, flow.sourcePort), h + 2, flow.destinationPort)
  }

  /** The value `CalculateChecksum` combines from pseudo header, TCP header and payload. */
  function TcpSum(f: Family, p: seq<Byte>): U16
    requires TcpPacket(f, p)
  {
    var t := Transport(f, p);
    var d := DataOffset(t);
    Checksum(t[..d], Combine(PseudoHeaderChecksum(TCP, Source(f, p), Destination(f, p), |t|), Checksum(t[d..], 0)))
  }

  function WithTcpChecksum(f: Family, p: seq<Byte>): (q: seq<Byte>)
    requires TcpPacket(f, p)
    ensures Agree(f, p, q) && TcpPacket(f, q) && HeaderLength(f, q) == HeaderLength(f, p)
    ensures forall k | 0 <= k < |p| ::
              HeaderLength(f, p) + CHECKSUM_OFFSET <= k < HeaderLength(f, p) + CHECKSUM_OFFSET + 2 || q[k] == p[k]
  {
    var i := HeaderLength(f, p) + CHECKSUM_OFFSET;
    var z := SetU16(p, i, 0);
    AgreeKeepsLayout(f, p, z);
    var q := SetU16(z, i, Not(TcpSum(f, z)));
    AgreeKeepsLayout(f, p, q);
    q
  }

  /** The separately summed parts add up to pseudo header plus segment, for every even
      header split and every parity of the payload. */
  lemma TcpSumIsFold(f: Family, p: seq<Byte>)
    requires TcpPacket(f, p)
    ensures TcpSum(f, p)
         == Fold(WordSum(PseudoHeader(f, Source(f, p), Destination(f, p), TCP, PayloadLength(f, p)))
                 + WordSum(Transport(f, p)))
  {
    hide WordSum, Fold, Checksum, Combine, PseudoHeader, PseudoHeaderChecksum;
    var t := Transport(f, p);
    var source, destination := Source(f, p), Destination(f, p);
    PseudoHeaderChecksumIsFold(f, source, destination, TCP, |t|);
    SplitSum(t, DataOffset(t), WordSum(PseudoHeader(f, source, destination, TCP, |t|)));
  }

  lemma TcpChecksumPlace(f: Family, p: seq<Byte>, v: U16)
    requires TcpPacket(f, p)
    ensures var q := SetU16(p, HeaderLength(f, p) + CHECKSUM_OFFSET, v);
            && TcpPacket(f, q)
            && Transport(f, q) == SetU16(Transport(f, p), CHECKSUM_OFFSET, v)
            && Source(f, q) == Source(f, p) && Destination(f, q) == Destination(f, p)
            && HeaderLength(f, q) == HeaderLength(f, p) && PayloadLength(f, q) == PayloadLength(f, p)
  {
    var q := SetU16(p, HeaderLength(f, p) + CHECKSUM_OFFSET, v);
    AgreeKeepsLayout(f, p, q);
  }

  lemma TcpChecksumCompletes(f: Family, p: seq<Byte>)
    requires TcpPacket(f, p)
    ensures SegmentChecksumValid(f, TCP, WithTcpChecksum(f, p))
  {
    hide WordSum, Fold, TcpSum, PseudoHeader, SetU16, Transport, Source, Destination, HeaderLength, PayloadLength;
    var z := SetU16(p, HeaderLength(f, p) + CHECKSUM_OFFSET, 0);
    TcpChecksumPlace(f, p, 0);
    TcpChecksumPlace(f, z, Not(TcpSum(f, z)));
    TcpSumIsFold(f, z);
    var t := Transport(f, z);
    StoredChecksumCompletes(t, CHECKSUM_OFFSET,
      WordSum(PseudoHeader(f, Source(f, z), Destination(f, z), TCP, |t|)));
  }

  /** A packet sent on under new endpoints: fields replaced, both checksums recomputed. */
  function Rewritten(f: Family, p: seq<Byte>, flow: Flow): (q: seq<Byte>)
    requires TcpPacket(f, p) && |flow.source| == |flow.destination| == AddressLength(f)
  {
    var a := Readdressed(f, p, flow);
    var b := WithHeaderChecksum(f, a);
    AgreeKeepsLayout(f, p, b);
    WithTcpChecksum(f, b)
  }

  lemma RewrittenSteps(f: Family, p: seq<Byte>, flow: Flow)
    requires TcpPacket(f, p) && |flow.source| == |flow.destination| == AddressLength(f)
    ensures var b := WithHeaderChecksum(f, Readdressed(f, p, flow));
            && HeaderLength(f, Readdressed(f, p, flow)) >= MinimumHeader(f)
            && HeaderLength(f, Readdressed(f, p, flow)) <= |p|
            && TcpPacket(f, b)
            && Rewritten(f, p, flow) == WithTcpChecksum(f, b)
  {
    hide WithTcpChecksum, SetU16, Checksum;
    AgreeKeepsLayout(f, p, WithHeaderChecksum(f, Readdressed(f, p, flow)));
  }

  lemma KeepsHeaderAndPorts(f: Family, p: seq<Byte>, q: seq<Byte>)
    requires TcpPacket(f, p) && |q| == |p| && TcpPacket(f, q) && HeaderLength(f, q) == HeaderLength(f, p)
    requires forall k | 0 <= k < |p| ::
               || InHeaderChecksum(f, k)
               || HeaderLength(f, p) + CHECKSUM_OFFSET <= k < HeaderLength(f, p) + CHECKSUM_OFFSET + 2
               || q[k] == p[k]
    ensures FlowOf(f, q) == FlowOf(f, p)
  {
  }

  /** A rewritten packet has exactly the given endpoints, valid checksums for its new
      content, and every other byte unchanged. */
  lemma RewrittenIsValid(f: Family, p: seq<Byte>, flow: Flow)
    requires TcpPacket(f, p) && |flow.source| == |flow.destination| == AddressLength(f)
    ensures var q := Rewritten(f, p, flow);
            && TcpPacket(f, q)
            && FlowOf(f, q) == flow
            && Agree(f, p, q)
            && HeaderChecksumValid(f, q)
            && SegmentChecksumValid(f, TCP, q)
  {
    hide WordSum, Fold, TcpSum, PseudoHeader, SetU16, SetBytes, SegmentChecksumValid;
    var h := HeaderLength(f, p);
    var a := Readdressed(f, p, flow);
    var b := WithHeaderChecksum(f, a);
    AgreeKeepsLayout(f, p, b);
    HeaderChecksumCompletes(f, a);
    TcpChecksumCompletes(f, b);
    var q := WithTcpChecksum(f, b);
    assert q == Rewritten(f, p, flow);
    KeepsHeaderAndPorts(f, a, b);
    KeepsHeaderAndPorts(f, b, q);
    assert q[..h] == b[..h];
  }

  /** The endpoint fields and the bytes outside them determine the readdressed packet,
      whatever the order in which the fields were written. */
  lemma EndpointsDetermine(f: Family, p: seq<Byte>, q: seq<Byte>, flow: Flow)
    requires TcpPacket(f, p) && |flow.source| == |flow.destination| == AddressLength(f)
    requires |q| == |p|
    requires forall k | 0 <= k < |p| ::
               InAddresses(f, k) || HeaderLength(f, p) <= k < HeaderLength(f, p) + 4 || q[k] == p[k]
    requires Source(f, q) == flow.source && Destination(f, q) == flow.destination
    requires U16At(q, HeaderLength(f, p)) == flow.sourcePort && U16At(q, HeaderLength(f, p) + 2) == flow.destinationPort
    ensures q == Readdressed(f, p, flow)
  {
    hide Readdressed, Transport, DataOffset, Source, Destination, U16At;
    var r := Readdressed(f, p, flow);
    FieldsDetermine(f, q, r, HeaderLength(f, p));
  }

  /** Packets that agree in addresses and ports, and outside them, are equal. */
  lemma FieldsDetermine(f: Family, q: seq<Byte>, r: seq<Byte>, h: nat)
    requires |q| == |r| && MinimumHeader(f) <= |q| && h + 4 <= |q|
    requires Source(f, q) == Source(f, r) && Destination(f, q) == Destination(f, r)
    requires U16At(q, h) == U16At(r, h) && U16At(q, h + 2) == U16At(r, h + 2)
    requires forall k | 0 <= k < |q| :: InAddresses(f, k) || h <= k < h + 4 || q[k] == r[k]
    ensures q == r
  {
    forall k | 0 <= k < |q| && InAddresses(f, k)
      ensures q[k] == r[k]
    {
      if SourceOffset(f) <= k < SourceOffset(f) + AddressLength(f) {
        assert Source(f, q)[k - SourceOffset(f)] == Source(f, r)[k - SourceOffset(f)];
      } else {
        assert Destination(f, q)[k - DestinationOffset(f)] == Destination(f, r)[k - DestinationOffset(f)];
      }
    }
  }

  /** The writes of the outgoing branch; the source port stays. */
  lemma OutgoingWrites(f: Family, p: seq<Byte>, source: Address, destination: Address, port: U16)
    requires TcpPacket(f, p) && |source| == |destination| == AddressLength(f)
    ensures SetU16(SetBytes(SetBytes(p, SourceOffset(f), source), DestinationOffset(f), destination),
                   HeaderLength(f, p) + 2, port)
         == Readdressed(f, p, Flow(source, FlowOf(f, p).sourcePort, destination, port))
  {
    hide Readdressed, SetBytes, SetU16;
    var h := HeaderLength(f, p);
    var a := SetBytes(p, SourceOffset(f), source);
    var b := SetBytes(a, DestinationOffset(f), destination);
    var q := SetU16(b, h + 2, port);
    assert Source(f, q) == Source(f, a) && Destination(f, q) == Destination(f, b);
    assert U16At(q, h) == U16At(p, h);
    EndpointsDetermine(f, p, q, Flow(source, U16At(p, h), destination, port));
  }

  /** The writes of the reply branch; the destination port stays. */
  lemma ReplyWrites(f: Family, p: seq<Byte>, source: Address, port: U16, destination: Address)
    requires TcpPacket(f, p) && |source| == |destination| == AddressLength(f)
    ensures SetBytes(SetU16(SetBytes(p, SourceOffset(f), source), HeaderLength(f, p), port),
                     DestinationOffset(f), destination)
         == Readdressed(f, p, Flow(source, port, destination, FlowOf(f, p).destinationPort))
  {
    hide Readdressed, SetBytes, SetU16;
    var h := HeaderLength(f, p);
    var a := SetBytes(p, SourceOffset(f), source);
    var b := SetU16(a, h, port);
    var q := SetBytes(b, DestinationOffset(f), destination);
    assert Source(f, q) == Source(f, a);
    assert U16At(q, h) == U16At(b, h) && U16At(q, h + 2) == U16At(p, h + 2);
    EndpointsDetermine(f, p, q, Flow(source, port, destination, U16At(p, h + 2)));
  }

  // ---- The session table ----

  datatype PeerKey = PeerKey(destinationAddress: Address, sourcePort: U16)

  datatype PeerValue = PeerValue(sourceAddress: Address, destinationPort: U16)

  type Sessions = map<PeerKey, PeerValue>

  /** Both addresses of an entry belong to one family. */
  predicate Typed(sessions: Sessions) {
    forall k :: k in sessions ==> |sessions[k].sourceAddress| == |k.destinationAddress|
  }

  function KeyOf(flow: Flow): PeerKey {
    PeerKey(flow.destination, flow.sourcePort)
  }

  function ValueOf(flow: Flow): PeerValue {
    PeerValue(flow.source, flow.destinationPort)
  }

  datatype Outcome = Outcome(sessions: Sessions, packet: seq<Byte>, sent: bool)

  /** One packet from the device: the new table, the packet's new content, and whether it
      is written back. A first packet opens a session, a later one keeps the entry; a
      packet from the listener's port is a reply and needs an entry. */
  function Process(f: Family, port: U16, sessions: Sessions, p: seq<Byte>): (r: Outcome)
    requires TcpPacket(f, p) && Typed(sessions)
    ensures Typed(r.sessions)
  {
    hide Rewritten, FlowOf, Transport, DataOffset;
    var flow := FlowOf(f, p);
    if flow.sourcePort != port then
      Outcome(if KeyOf(flow) in sessions then sessions else sessions[KeyOf(flow) := ValueOf(flow)],
              Rewritten(f, p, Flow(flow.destination, flow.sourcePort, Client(f), port)),
              true)
    else
      var key := PeerKey(flow.destination, flow.destinationPort);
      if key !in sessions then Outcome(sessions, p, false)
      else
        var v := sessions[key];
        Outcome(sessions,
                Rewritten(f, p, Flow(flow.destination, v.destinationPort, v.sourceAddress, flow.destinationPort)),
                true)
  }

  /** What a packet becomes, told by its endpoints: one that is not the listener's leaves as the
      destination's packet to the listener, one that is leaves as the destination's answer to whom
      its entry names, with valid checksums; the listener's packet without an entry does nothing. */
  lemma ProcessExactly(f: Family, port: U16, sessions: Sessions, p: seq<Byte>)
    requires TcpPacket(f, p) && Typed(sessions)
    ensures var flow, r := FlowOf(f, p), Process(f, port, sessions, p);
            var key := PeerKey(flow.destination, flow.destinationPort);
      && (r.sent <==> flow.sourcePort != port || key in sessions)
      && (r.sent ==> TcpPacket(f, r.packet) && HeaderChecksumValid(f, r.packet) && SegmentChecksumValid(f, 6, r.packet))
      && (flow.sourcePort != port ==>
            FlowOf(f, r.packet) == Flow(flow.destination, flow.sourcePort, Client(f), port))
      && (flow.sourcePort == port && key in sessions ==>
            FlowOf(f, r.packet) == Flow(flow.destination, sessions[key].destinationPort,
                                        sessions[key].sourceAddress, flow.destinationPort))
      && (!r.sent ==> r.packet == p)
      && (flow.sourcePort == port ==> r.sessions == sessions)
      && (flow.sourcePort != port ==>
            var entry := PeerKey(flow.destination, flow.sourcePort);
            r.sessions == if entry in sessions then sessions
                          else sessions[entry := PeerValue(flow.source, flow.destinationPort)])
  {
    hide FlowOf, Rewritten, HeaderLength, PayloadLength, DataOffset, HeaderChecksumValid, SegmentChecksumValid;
    var flow := FlowOf(f, p);
    var key := PeerKey(flow.destination, flow.destinationPort);
    if flow.sourcePort != port {
      RewrittenIsValid(f, p, Flow(flow.destination, flow.sourcePort, Client(f), port));
    } else if key in sessions {
      var v := sessions[key];
      RewrittenIsValid(f, p, Flow(flow.destination, v.destinationPort, v.sourceAddress, flow.destinationPort));
    }
  }

  /** The flow handed to `NewConnection` for a connection accepted from this peer. */
  function Recovered(sessions: Sessions, remote: Address, remotePort: U16): Option<Flow> {
    var key := PeerKey(Normalized(remote), remotePort);
    if key in sessions
    then Some(Flow(sessions[key].sourceAddress, remotePort, key.destinationAddress, sessions[key].destinationPort))
    else None
  }

  /** Looking a peer up by its address as it is. */
  function Lookup(sessions: Sessions, address: Address, port: U16): Option<Flow> {
    var key := PeerKey(address, port);
    if key in sessions then Some(Flow(sessions[key].sourceAddress, port, address, sessions[key].destinationPort))
    else None
  }

  /** The form in which a dual-stack listener reports an IPv4 peer. */
  function Mapped(a: Address): (m: Address)
    requires |a| == 4
    ensures |m| == 16
  {
    [0, 0, 0, 0, 0, 0, 0, 0, 0, 0, 0xff, 0xff] + a
  }

  /** Such a peer is looked up by its IPv4 address, any other by its address as it is. */
  lemma PeerIsLookedUp(sessions: Sessions, remote: Address, port: U16)
    ensures forall a: Address :: |a| == 4 && remote == Mapped(a) ==>
      Recovered(sessions, remote, port) == Lookup(sessions, a, port)
    ensures (forall a: Address :: |a| == 4 ==> remote != Mapped(a)) ==>
      Recovered(sessions, remote, port) == Lookup(sessions, remote, port)
  {
    if IsMapped(remote) {
      assert remote == Mapped(remote[12..]);
    }
    forall a: Address | |a| == 4 && remote == Mapped(a)
      ensures Normalized(remote) == a
    {
      assert remote[12..] == a;
      assert IsMapped(remote);
    }
  }

  /** The network's own addresses: 172.19.0.1 and fdfe:dcba:9876::1. */
  lemma ClientAddresses()
    ensures Client(V4) == [172, 19, 0, 1]
    ensures var c := Client(V6);
      && U16At(c, 0) == 0xfdfe && U16At(c, 2) == 0xdcba && U16At(c, 4) == 0x9876
      && U16At(c, 6) == U16At(c, 8) == U16At(c, 10) == U16At(c, 12) == 0 && U16At(c, 14) == 1
  {
  }

  /** What rewriting may touch, by offset: the IPv4 header checksum, the addresses, the ports and
      the TCP checksum 16 bytes into the TCP header. */
  lemma TouchedBytes(f: Family, p: seq<Byte>, flow: Flow, k: nat)
    requires TcpPacket(f, p) && |flow.source| == |flow.destination| == AddressLength(f) && k < |p|
    ensures var q, h := Rewritten(f, p, flow), HeaderLength(f, p);
      |q| == |p| && (|| q[k] == p[k]
                     || h <= k < h + 4 || h + 16 <= k < h + 18
                     || if f == V4 then 10 <= k < 20 else 8 <= k < 40)
  {
    hide Rewritten;
    RewrittenIsValid(f, p, flow);
  }

  class TcpForwarder {
    const port: U16
    var sessions: Sessions
    /** Packets written to the device, oldest first. */
    var device: seq<seq<Byte>>

    ghost predicate Valid()
      reads this
    {
      Typed(sessions)
    }

    constructor (port: U16)
      ensures Valid() && this.port == port && sessions == map[] && device == []
    {
      this.port, sessions, device := port, map[], [];
    }

    method ProcessIPv4(pkt: array<Byte>, n: nat)
      requires Valid() && n <= pkt.Length && TcpPacket(V4, pkt[0..n])
      modifies this, pkt
      ensures Valid()
      ensures var r := Process(V4, port, old(sessions), old(pkt[0..n]));
              && sessions == r.sessions
              && pkt[0..n] == r.packet
              && device == old(device) + (if r.sent then [r.packet] else [])
    {
      hide Rewritten, Readdressed, Transport, DataOffset, SetU16, SetBytes, U16At, Source, Destination;
      var p := pkt[0..n];
      var sourceAddress, destinationAddress := Source(V4, p), Destination(V4, p);
      var tcp := HeaderLength(V4, p);
      var sourcePort, destinationPort := U16At(p, tcp), U16At(p, tcp + 2);
      assert FlowOf(V4, p) == Flow(sourceAddress, sourcePort, destinationAddress, destinationPort);
      hide FlowOf;
      ghost var flow: Flow;
      if sourcePort != port {
        var key := PeerKey(destinationAddress, sourcePort);
        if key !in sessions {
          sessions := sessions[key := PeerValue(sourceAddress, destinationPort)];
        }
        PutBytes(pkt, 0, n, SourceOffset(V4), destinationAddress);
        PutBytes(pkt, 0, n, DestinationOffset(V4), Client(V4));
        PutU16(pkt, 0, n, tcp + 2, port);
        flow := Flow(destinationAddress, sourcePort, Client(V4), port);
        OutgoingWrites(V4, p, destinationAddress, Client(V4), port);
        assert pkt[0..n] == Readdressed(V4, p, flow);
      } else {
        var key := PeerKey(destinationAddress, destinationPort);
        if key !in sessions {
          return;
        }
        var session := sessions[key];
        PutBytes(pkt, 0, n, SourceOffset(V4), destinationAddress);
        PutU16(pkt, 0, n, tcp, session.destinationPort);
        PutBytes(pkt, 0, n, DestinationOffset(V4), session.sourceAddress);
        flow := Flow(destinationAddress, session.destinationPort, session.sourceAddress, destinationPort);
        ReplyWrites(V4, p, destinationAddress, session.destinationPort, session.sourceAddress);
        assert pkt[0..n] == Readdressed(V4, p, flow);
      }
      Send(V4, pkt, n, p, flow);
    }

    method ProcessIPv6(pkt: array<Byte>, n: nat)
      requires Valid() && n <= pkt.Length && TcpPacket(V6, pkt[0..n])
      modifies this, pkt
      ensures Valid()
      ensures var r := Process(V6, port, old(sessions), old(pkt[0..n]));
              && sessions == r.sessions
              && pkt[0..n] == r.packet
              && device == old(device) + (if r.sent then [r.packet] else [])
    {
      hide Rewritten, Readdressed, Transport, DataOffset, SetU16, SetBytes, U16At, Source, Destination;
      var p := pkt[0..n];
      var sourceAddress, destinationAddress := Source(V6, p), Destination(V6, p);
      var tcp := HeaderLength(V6, p);
      var sourcePort, destinationPort := U16At(p, tcp), U16At(p, tcp + 2);
      assert FlowOf(V6, p) == Flow(sourceAddress, sourcePort, destinationAddress, destinationPort);
      hide FlowOf;
      ghost var flow: Flow;
      if sourcePort != port {
        var key := PeerKey(destinationAddress, sourcePort);
        if key !in sessions {
          sessions := sessions[key := PeerValue(sourceAddress, destinationPort)];
        }
        PutBytes(pkt, 0, n, SourceOffset(V6), destinationAddress);
        PutBytes(pkt, 0, n, DestinationOffset(V6), Client(V6));
        PutU16(pkt, 0, n, tcp + 2, port);
        flow := Flow(destinationAddress, sourcePort, Client(V6), port);
        OutgoingWrites(V6, p, destinationAddress, Client(V6), port);
        assert pkt[0..n] == Readdressed(V6, p, flow);
      } else {
        var key := PeerKey(destinationAddress, destinationPort);
        if key !in sessions {
          return;
        }
        var session := sessions[key];
        PutBytes(pkt, 0, n, SourceOffset(V6), destinationAddress);
        PutU16(pkt, 0, n, tcp, session.destinationPort);
        PutBytes(pkt, 0, n, DestinationOffset(V6), session.sourceAddress);
        flow := Flow(destinationAddress, session.destinationPort, session.sourceAddress, destinationPort);
        ReplyWrites(V6, p, destinationAddress, session.destinationPort, session.sourceAddress);
        assert pkt[0..n] == Readdressed(V6, p, flow);
      }
      Send(V6, pkt, n, p, flow);
    }

    /** The common end of both methods: the checksums of a packet whose endpoints are
        already replaced, and the write to the device. */
    method Send(f: Family, pkt: array<Byte>, n: nat, ghost p: seq<Byte>, ghost flow: Flow)
      requires n <= pkt.Length && TcpPacket(f, p) && |flow.source| == |flow.destination| == AddressLength(f)
      requires pkt[0..n] == Readdressed(f, p, flow)
      modifies this`device, pkt
      ensures pkt[0..n] == Rewritten(f, p, flow)
      ensures device == old(device) + [Rewritten(f, p, flow)]
    {
      hide Rewritten, Readdressed, WithTcpChecksum, TcpPacket, WellFormed;
      RewrittenSteps(f, p, flow);
      if f == V4 {
        hide WithHeaderChecksum;
        SetHeaderChecksum(pkt, 0, n);
      }
      SetTcpChecksum(f, pkt, n);
      device := device + [pkt[0..n]];
    }

    /** `dispatch`: the flow of an accepted connection, or None when the peer is unknown
        and the connection is closed. */
    method Dispatch(remote: Address, remotePort: U16) returns (accepted: Option<Flow>)
      ensures accepted == Recovered(sessions, remote, remotePort)
      ensures forall a: Address :: |a| == 4 && remote == Mapped(a) ==> accepted == Lookup(sessions, a, remotePort)
    {
      PeerIsLookedUp(sessions, remote, remotePort);
      var address := remote;
      if IsMapped(address) {
        address := address[12..];
      }
      var key := PeerKey(address, remotePort);
      if key in sessions {
        var session := sessions[key];
        return Some(Flow(session.sourceAddress, key.sourcePort, key.destinationAddress, session.destinationPort));
      }
      return None;
    }

    /** Deletion after a connection ends, and expiry from the cache. */
    method Delete(key: PeerKey)
      requires Valid()
      modifies this`sessions
      ensures Valid() && sessions == old(sessions) - {key}
    {
      sessions := sessions - {key};
    }
  }

  /** `SetChecksum(0); SetChecksum(^CalculateChecksum(...))` on the TCP header. */
  method SetTcpChecksum(f: Family, pkt: array<Byte>, n: nat)
    requires n <= pkt.Length && TcpPacket(f, pkt[0..n])
    modifies pkt
    ensures pkt[0..n] == WithTcpChecksum(f, old(pkt[0..n]))
  {
    hide Checksum, Combine, PseudoHeaderChecksum, Transport, DataOffset, SetU16, Source, Destination;
    ghost var p := pkt[0..n];
    TcpChecksumPlace(f, p, 0);
    var i := HeaderLength(f, pkt[0..n]) + CHECKSUM_OFFSET;
    PutU16(pkt, 0, n, i, 0);
    var z := pkt[0..n];
    var segment := Transport(f, z);
    var d := DataOffset(segment);
    var pseudo := PseudoHeaderChecksum(TCP, Source(f, z), Destination(f, z), Truncate(|segment|));
    var sum := Checksum(segment[..d], Combine(pseudo, Checksum(segment[d..], 0)));
    assert sum == TcpSum(f, z);
    hide TcpSum;
    PutU16(pkt, 0, n, i, Not(sum));
  }
}
