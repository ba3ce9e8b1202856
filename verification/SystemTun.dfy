/** The read loop of the system TUN: packets are demultiplexed by version and protocol, and
    the buffer a packet was read into is either handed to a handler, payload first, or read
    into again. */
module SystemTun {
  import opened Bytes
  import opened IpPacket
  import opened BufBuffer
  import TcpNat
  import TcpNatRuns
  import opened UdpReply
  import opened IcmpReply

  function Version(p: seq<Byte>): int {
    if |p| < 1 then -1 else p[0] / 16
  }

  /** Protocol of the packet: a header field for IPv4, the parser's verdict for IPv6. */
  function Demux(p: seq<Byte>, parsed: Option<Byte>): Option<(Family, Byte)>
    requires Version(p) == 4 ==> |p| >= 20
  {
    if Version(p) == 4 then Some((V4, p[9]))
    else if Version(p) == 6 && parsed.Some? then Some((V6, parsed.value))
    else None
  }

  function IcmpProtocol(f: Family): Byte {
    if f == V4 then ICMP4 else ICMP6
  }

  /** Complete headers, and for UDP and ICMP a packet that was read whole. */
  predicate Readable(p: seq<Byte>, parsed: Option<Byte>) {
    && (Version(p) == 4 ==> |p| >= 20)
    && match Demux(p, parsed)
       case None => true
       case Some((f, protocol)) =>
         if protocol == TCP then TcpNat.TcpPacket(f, p)
         else if protocol == UDP then Whole(f, p) && PayloadLength(f, p) >= UDP_HEADER
         else if protocol == IcmpProtocol(f) then Whole(f, p) && PayloadLength(f, p) >= 4
         else true
  }

  predicate Whole(f: Family, p: seq<Byte>) {
    WellFormed(f, p) && HeaderLength(f, p) + PayloadLength(f, p) == |p|
  }

  /** What one packet means to the handlers. */
  datatype Delivery =
    | Nothing
    | Datagram(flow: Flow, payload: seq<Byte>)
    | Ping(source: Address, destination: Address, message: seq<Byte>)

  function Deliver(p: seq<Byte>, parsed: Option<Byte>, takesPing: bool): Delivery
    requires Readable(p, parsed)
  {
    match Demux(p, parsed)
    case None => Nothing
    case Some((f, protocol)) =>
      if protocol == TCP then Nothing
      else if protocol == UDP then Datagram(FlowOf(f, p), Transport(f, p)[UDP_HEADER..])
      else if protocol == IcmpProtocol(f) && IsEcho(f, p) && takesPing
      then Ping(Source(f, p), Destination(f, p), Transport(f, p))
      else Nothing
  }

  /** The TCP packet among the forwarder's events, if it is one. */
  function TcpEvent(p: seq<Byte>, parsed: Option<Byte>): (es: seq<TcpNatRuns.Event>)
    requires Readable(p, parsed)
    ensures TcpNatRuns.AllAdmissible(es) && |es| <= 1
  {
    match Demux(p, parsed)
    case None => []
    case Some((f, protocol)) => if protocol == TCP then [TcpNatRuns.Packet(f, p)] else []
  }

  /** The answer written for a ping that the handler refuses. */
  function Answer(p: seq<Byte>, parsed: Option<Byte>, takesPing: bool): seq<seq<Byte>>
    requires Readable(p, parsed)
  {
    match Demux(p, parsed)
    case None => []
    case Some((f, protocol)) =>
      if protocol != TCP && protocol != UDP && protocol == IcmpProtocol(f) && IsEcho(f, p) && !takesPing then
        [EchoReply(f, p)]
      else []
  }

  // ---- The same, on the bytes of the packet ----

  /** Of an IPv4 packet the header and, by its protocol (6, 17 or 1), the TCP header or the whole
      packet with the UDP header or four bytes of ICMP. */
  predicate CompleteV4(p: seq<Byte>)
    requires |p| >= 1
  {
    && |p| >= 20
    && var h, n := p[0] % 16 * 4, U16At(p, 2);
       && (p[9] == 6 ==> 20 <= h && h + 18 <= n <= |p| && p[h + 12] / 16 * 4 <= n - h)
       && (p[9] == 17 ==> 20 <= h && h + 8 <= n == |p|)
       && (p[9] == 1 ==> 20 <= h && h + 4 <= n == |p|)
  }

  /** The same of an IPv6 packet, by the protocol that the parser finds (6, 17 or 58). */
  predicate CompleteV6(p: seq<Byte>, parsed: Option<Byte>) {
    && (parsed == Some(6) ==> |p| >= 58 && 18 <= U16At(p, 4) <= |p| - 40 && p[52] / 16 * 4 <= U16At(p, 4))
    && (parsed == Some(17) ==> |p| >= 48 && U16At(p, 4) == |p| - 40)
    && (parsed == Some(58) ==> |p| >= 44 && U16At(p, 4) == |p| - 40)
  }

  /** Those are the packets that the loop can read, and all of other versions. */
  lemma ReadableExactly(p: seq<Byte>, parsed: Option<Byte>)
    ensures Readable(p, parsed) <==>
      if p == [] then true
      else if p[0] / 16 == 4 then CompleteV4(p)
      else if p[0] / 16 == 6 then CompleteV6(p, parsed)
      else true
  {
    if |p| >= 20 && p[0] / 16 == 4 && p[9] == 6 && WellFormed(V4, p) && PayloadLength(V4, p) >= 18 {
      assert Transport(V4, p)[12] == p[p[0] % 16 * 4 + 12];
    }
    if |p| >= 40 && p[0] / 16 == 6 && parsed == Some(6) && WellFormed(V6, p) && PayloadLength(V6, p) >= 18 {
      assert Transport(V6, p)[12] == p[52];
    }
  }

  /** What an IPv4 packet means: TCP goes to the forwarder, UDP to the handler with its endpoints
      and data, an echo request (type 8, code 0) to the handler that takes it and is answered
      otherwise; every other packet means nothing. */
  lemma MeaningV4(p: seq<Byte>, parsed: Option<Byte>, takesPing: bool)
    requires |p| >= 1 && p[0] / 16 == 4 && CompleteV4(p)
    ensures Readable(p, parsed)
    ensures TcpEvent(p, parsed) == if p[9] == 6 then [TcpNatRuns.Packet(V4, p)] else []
    ensures Deliver(p, parsed, takesPing) ==
      var h := p[0] % 16 * 4;
      if p[9] == 17 then Datagram(Flow(p[12..16], U16At(p, h), p[16..20], U16At(p, h + 2)), p[h + 8..])
      else if p[9] == 1 && p[h] == 8 && p[h + 1] == 0 && takesPing then Ping(p[12..16], p[16..20], p[h..])
      else Nothing
    ensures var h := p[0] % 16 * 4;
      if p[9] == 1 && p[h] == 8 && p[h + 1] == 0 && !takesPing
      then WellFormed(V4, p) && Answer(p, parsed, takesPing) == [EchoReply(V4, p)]
      else Answer(p, parsed, takesPing) == []
  {
    hide EchoReply;
    ReadableExactly(p, parsed);
    var h := p[0] % 16 * 4;
    if p[9] == 17 || p[9] == 1 {
      WholeTransport(V4, p);
      assert Transport(V4, p)[0] == p[h] && Transport(V4, p)[1] == p[h + 1];
      assert p[9] == 17 ==> p[h..][8..] == p[h + 8..];
    }
  }

  /** And an IPv6 packet, whose echo request has type 128. */
  lemma MeaningV6(p: seq<Byte>, parsed: Option<Byte>, takesPing: bool)
    requires |p| >= 1 && p[0] / 16 == 6 && CompleteV6(p, parsed)
    ensures Readable(p, parsed)
    ensures TcpEvent(p, parsed) == if parsed == Some(6) then [TcpNatRuns.Packet(V6, p)] else []
    ensures Deliver(p, parsed, takesPing) ==
      if parsed == Some(17) then Datagram(Flow(p[8..24], U16At(p, 40), p[24..40], U16At(p, 42)), p[48..])
      else if parsed == Some(58) && p[40] == 128 && p[41] == 0 && takesPing then Ping(p[8..24], p[24..40], p[40..])
      else Nothing
    ensures if parsed == Some(58) && p[40] == 128 && p[41] == 0 && !takesPing
      then WellFormed(V6, p) && Answer(p, parsed, takesPing) == [EchoReply(V6, p)]
      else Answer(p, parsed, takesPing) == []
  {
    hide EchoReply;
    ReadableExactly(p, parsed);
    if parsed == Some(17) || parsed == Some(58) {
      WholeTransport(V6, p);
      assert Transport(V6, p)[0] == p[40] && Transport(V6, p)[1] == p[41];
      assert parsed == Some(17) ==> p[40..][8..] == p[48..];
    }
  }

  /** Every other packet, and an empty read, means nothing. */
  lemma MeaningOfOthers(p: seq<Byte>, parsed: Option<Byte>, takesPing: bool)
    requires p == [] || (p[0] / 16 != 4 && p[0] / 16 != 6)
    ensures Readable(p, parsed)
    ensures TcpEvent(p, parsed) == [] && Answer(p, parsed, takesPing) == []
    ensures Deliver(p, parsed, takesPing) == Nothing
  {
  }

  /** A datagram's payload as its UDP header announces it; None if it announces the impossible. */
  function UdpData(t: seq<Byte>): Option<seq<Byte>>
    requires |t| >= UDP_HEADER
  {
    if UDP_HEADER <= U16At(t, 4) <= |t| then Some(t[UDP_HEADER..U16At(t, 4)]) else None
  }

  /** The code never reads the UDP length: what it hands over is the payload that the UDP header
      announces exactly if the two headers agree. */
  lemma HandedIsUdpDataExactly(f: Family, p: seq<Byte>)
    requires Whole(f, p) && PayloadLength(f, p) >= UDP_HEADER
    ensures UdpData(Transport(f, p)) == Some(Transport(f, p)[UDP_HEADER..])
       <==> U16At(Transport(f, p), 4) == PayloadLength(f, p)
  {
    var t := Transport(f, p);
    assert |t[UDP_HEADER..]| == |t| - UDP_HEADER;
    if U16At(t, 4) == |t| {
      assert t[UDP_HEADER..|t|] == t[UDP_HEADER..];
    }
  }

  /** A buffer in a handler's hands, with what it was given for. */
  datatype Handed = Handed(delivery: Delivery, buffer: Buffer)

  /** A datagram sent back to where it came from, source fields still unpatched. */
  function SentBack(f: Family, p: seq<Byte>): (q: seq<Byte>)
    requires Whole(f, p) && PayloadLength(f, p) >= UDP_HEADER
    ensures |q| == |p|
  {
    SetU16(SetBytes(p, DestinationOffset(f), FlowOf(f, p).source), HeaderLength(f, p) + 2, FlowOf(f, p).sourcePort)
  }

  /** Its headers make a template for replies, and the payload behind them is untouched. */
  lemma SavedHeader(f: Family, p: seq<Byte>)
    requires Whole(f, p) && PayloadLength(f, p) >= UDP_HEADER
    ensures var h := HeaderLength(f, p);
            var q := SentBack(f, p);
            && IsTemplate(f, q[..h + UDP_HEADER])
            && Destination(f, q[..h + UDP_HEADER]) == FlowOf(f, p).source
            && U16At(q[..h + UDP_HEADER], h + 2) == FlowOf(f, p).sourcePort
            && q[h + UDP_HEADER..] == Transport(f, p)[UDP_HEADER..]
  {
    hide SetU16, SetBytes, FlowOf;
    var h := HeaderLength(f, p);
    var a := SetBytes(p, DestinationOffset(f), FlowOf(f, p).source);
    var q := SentBack(f, p);
    assert q[0] == p[0];
    var template := q[..h + UDP_HEADER];
    assert HeaderLength(f, template) == h;
    SameDestination(f, template, a);
    assert Destination(f, a) == FlowOf(f, p).source;
    assert U16At(template, h + 2) == U16At(q, h + 2);
    assert forall k :: h + UDP_HEADER <= k < |p| ==> q[k] == p[k];
  }

  /** Destination address and port take the source's place, and nothing else changes. */
  lemma SentBackBytes(f: Family, p: seq<Byte>)
    requires Whole(f, p) && PayloadLength(f, p) >= UDP_HEADER
    ensures var h, q := HeaderLength(f, p), SentBack(f, p);
      && (if f == V4 then q[16..20] == p[12..16] else q[24..40] == p[8..24])
      && q[h + 2] == p[h] && q[h + 3] == p[h + 1]
      && forall k :: 0 <= k < |p| && !(h + 2 <= k < h + 4) && !(if f == V4 then 16 <= k < 20 else 24 <= k < 40)
           ==> q[k] == p[k]
  {
    hide SetBytes;
    var h, a := HeaderLength(f, p), SetBytes(p, DestinationOffset(f), FlowOf(f, p).source);
    var q := SentBack(f, p);
    assert FlowOf(f, p).source == if f == V4 then p[12..16] else p[8..24];
    if f == V4 {
      assert q[16..20] == a[16..20];
    } else {
      assert q[24..40] == a[24..40];
    }
  }

  lemma WholeTransport(f: Family, p: seq<Byte>)
    requires Whole(f, p)
    ensures Transport(f, p) == p[HeaderLength(f, p)..]
  {
  }

  /** One read of the device: the packet, the IPv6 parser's verdict on it, and whether the
      handler would take a ping. */
  datatype Read = Read(bytes: seq<Byte>, parsed: Option<Byte>, takesPing: bool)

  function Deliveries(inputs: seq<Read>): (ds: seq<Delivery>)
    requires forall r :: r in inputs ==> Readable(r.bytes, r.parsed)
  {
    if inputs == [] then []
    else
      var last := inputs[|inputs| - 1];
      var d := Deliver(last.bytes, last.parsed, last.takesPing);
      Deliveries(inputs[..|inputs| - 1]) + (if d.Nothing? then [] else [d])
  }

  /** The forwarder's events among the packets read. */
  function TcpEvents(inputs: seq<Read>): (es: seq<TcpNatRuns.Event>)
    requires forall r :: r in inputs ==> Readable(r.bytes, r.parsed)
    ensures TcpNatRuns.AllAdmissible(es)
  {
    if inputs == [] then []
    else
      var last := inputs[|inputs| - 1];
      TcpEvents(inputs[..|inputs| - 1]) + TcpEvent(last.bytes, last.parsed)
  }

  /** The answers to the pings among them that are refused. */
  function Answers(inputs: seq<Read>): seq<seq<Byte>>
    requires forall r :: r in inputs ==> Readable(r.bytes, r.parsed)
  {
    if inputs == [] then []
    else
      var last := inputs[|inputs| - 1];
      Answers(inputs[..|inputs| - 1]) + Answer(last.bytes, last.parsed, last.takesPing)
  }

  /** What one more read adds. */
  lemma NextRead(inputs: seq<Read>, i: nat)
    requires i < |inputs| && forall r :: r in inputs ==> Readable(r.bytes, r.parsed)
    ensures var r := inputs[i];
      && TcpEvents(inputs[..i + 1]) == TcpEvents(inputs[..i]) + TcpEvent(r.bytes, r.parsed)
      && Answers(inputs[..i + 1]) == Answers(inputs[..i]) + Answer(r.bytes, r.parsed, r.takesPing)
      && var d := Deliver(r.bytes, r.parsed, r.takesPing);
         Deliveries(inputs[..i + 1]) == Deliveries(inputs[..i]) + (if d.Nothing? then [] else [d])
  {
    hide Readable, Deliver, TcpEvent, Answer;
    assert inputs[..i + 1][..i] == inputs[..i];
  }

  lemma NoReads()
    ensures TcpEvents([]) == [] && Answers([]) == [] && Deliveries([]) == []
  {
  }

  lemma RunOfNothing(port: U16, s: TcpNatRuns.State)
    requires TcpNat.Typed(s.sessions)
    ensures TcpNatRuns.RunFrom(port, s, []) == s
  {
  }

  lemma RunOfPacket(port: U16, s: TcpNatRuns.State, f: Family, p: seq<Byte>)
    requires TcpNat.Typed(s.sessions) && TcpNat.TcpPacket(f, p)
    ensures var r := TcpNat.Process(f, port, s.sessions, p);
      TcpNatRuns.RunFrom(port, s, [TcpNatRuns.Packet(f, p)])
      == TcpNatRuns.State(r.sessions, s.device + (if r.sent then [r.packet] else []))
  {
    hide TcpNat.Process, TcpNat.TcpPacket;
    assert [TcpNatRuns.Packet(f, p)][..0] == [];
  }

  lemma RunOneMore(port: U16, s: TcpNatRuns.State, es: seq<TcpNatRuns.Event>, more: seq<TcpNatRuns.Event>)
    requires TcpNat.Typed(s.sessions) && TcpNatRuns.AllAdmissible(es) && TcpNatRuns.AllAdmissible(more) && |more| <= 1
    ensures TcpNatRuns.RunFrom(port, s, es + more) == TcpNatRuns.RunFrom(port, TcpNatRuns.RunFrom(port, s, es), more)
  {
    hide TcpNatRuns.Step;
    if more == [] {
      assert es + more == es;
    } else {
      assert (es + more)[..|es|] == es && more[..0] == [];
    }
  }

  class Tun {
    const tcp: TcpNat.TcpForwarder
    /** Every hand-over so far, oldest first. */
    var handed: seq<Handed>
    /** Ping answers written to the device. */
    var device: seq<seq<Byte>>

    ghost function Forwarder(): TcpNatRuns.State
      reads tcp
    {
      TcpNatRuns.State(tcp.sessions, tcp.device)
    }

    constructor (port: U16)
      ensures tcp.Valid() && tcp.port == port && handed == [] && device == [] && fresh(tcp)
    {
      tcp := new TcpNat.TcpForwarder(port);
      handed, device := [], [];
    }

    /** Turns a datagram towards its sender, in place. */
    method SendBack(f: Family, v: array<Byte>, n: nat)
      requires n <= v.Length && Whole(f, v[0..n]) && PayloadLength(f, v[0..n]) >= UDP_HEADER
      modifies v
      ensures v[0..n] == SentBack(f, old(v[0..n]))
    {
      hide SetU16, SetBytes;
      var p := v[0..n];
      PutBytes(v, 0, n, DestinationOffset(f), FlowOf(f, p).source);
      PutU16(v, 0, n, HeaderLength(f, p) + 2, FlowOf(f, p).sourcePort);
    }

    /** UDP: the packet is turned towards its sender, its headers are saved for replies,
        and the rest of the buffer is handed over. */
    method ProcessUdp(f: Family, cache: Buffer) returns (replier: Replier)
      requires cache.Valid() && cache.start == 0
      requires Whole(f, cache.Bytes()) && PayloadLength(f, cache.Bytes()) >= UDP_HEADER
      modifies this`handed, cache, cache.v
      ensures var p := old(cache.Bytes());
              var delivery := Datagram(FlowOf(f, p), Transport(f, p)[UDP_HEADER..]);
              && cache.Valid() && cache.Bytes() == delivery.payload
              && handed == old(handed) + [Handed(delivery, cache)]
              && fresh(replier) && replier.Valid() && replier.flow == delivery.flow
              && replier.Template() == SentBack(f, p)[..HeaderLength(f, p) + UDP_HEADER]
              && replier.device == []
    {
      hide Transport, FlowOf, HeaderLength, PayloadLength, Destination, IsTemplate, SentBack, U16At;
      var v, n := cache.v, cache.end;
      var p := v[0..n];
      assert p == cache.Bytes();
      var flow := FlowOf(f, p);
      var h := HeaderLength(f, p);
      SendBack(f, v, n);
      ghost var q := v[0..n];
      var header := v[0..n][..h + UDP_HEADER];
      SavedHeader(f, p);
      hide Whole;
      replier := new Replier(f, flow, header);
      cache.Advance(h + UDP_HEADER);
      assert cache.Bytes() == q[h + UDP_HEADER..];
      handed := handed + [Handed(Datagram(flow, Transport(f, p)[UDP_HEADER..]), cache)];
    }

    /** Turns an echo request round and saves its header for replies. */
    method TurnRound(f: Family, cache: Buffer) returns (replier: PingReplier)
      requires cache.Valid() && cache.start == 0 && Whole(f, cache.Bytes())
      modifies cache, cache.v
      ensures var p, n := old(cache.Bytes()), old(cache.end);
              && cache.Valid() && cache.Bytes() == Transport(f, p) && cache.v[0..n] == Turned(f, p)
              && fresh(replier) && replier.Valid() && replier.f == f && replier.device == []
              && replier.packet == cache.v && replier.length == n && replier.requestLength == PayloadLength(f, p)
              && replier.Net() == Turned(f, p)[..HeaderLength(f, p)]
    {
      hide Turned, Transport, InAddresses, InHeaderChecksum, HeaderChecksumValid, Source, Destination;
      var v, n := cache.v, cache.end;
      var p := v[0..n];
      assert p == cache.Bytes();
      TurnInPlace(f, v, n);
      TurnedIsValid(f, p);
      replier := new PingReplier(f, v, n);
      cache.Resize(HeaderLength(f, p), cache.Len());
      WholeTransport(f, v[0..n]);
      assert cache.Bytes() == v[0..n][HeaderLength(f, p)..];
    }

    /** ICMP: an echo request is turned round; the message is handed over if the handler
        takes it, and answered at once if not. */
    method ProcessIcmp(f: Family, cache: Buffer, takesPing: bool) returns (retained: bool, replier: PingReplier?)
      requires cache.Valid() && cache.start == 0
      requires Whole(f, cache.Bytes()) && PayloadLength(f, cache.Bytes()) >= 4
      modifies this`handed, this`device, cache, cache.v
      ensures cache.Valid()
      ensures var p := old(cache.Bytes());
              && retained == (IsEcho(f, p) && takesPing)
              && (retained ==>
                   && cache.Bytes() == Transport(f, p)
                   && handed == old(handed) + [Handed(Ping(Source(f, p), Destination(f, p), Transport(f, p)), cache)]
                   && device == old(device))
              && (!retained ==> handed == old(handed))
              && (!retained && IsEcho(f, p) ==> device == old(device) + [EchoReply(f, p)])
              && (!IsEcho(f, p) ==> device == old(device))
              && (retained ==>
                   && replier != null && fresh(replier) && replier.Valid() && replier.f == f && replier.device == []
                   && replier.packet == cache.v && replier.length == |p| && replier.requestLength == PayloadLength(f, p)
                   && replier.Net() == Turned(f, p)[..HeaderLength(f, p)])
    {
      hide Turned, Answered, Transport, WellFormed, Source, Destination;
      replier := null;
      var v, n := cache.v, cache.end;
      var p := v[0..n];
      var icmp := Transport(f, p);
      if icmp[0] != EchoType(f) || icmp[1] != 0 {
        return false, null;
      }
      replier := TurnRound(f, cache);
      if takesPing {
        handed := handed + [Handed(Ping(Source(f, p), Destination(f, p), icmp), cache)];
        return true, replier;
      }
      TurnedIsValid(f, p);
      AnswerInPlace(f, v, n);
      device := device + [v[0..n]];
      return false, null;
    }

    method DeliverPacket(cache: Buffer, parsed: Option<Byte>, takesPing: bool) returns (retained: bool)
      requires tcp.Valid() && cache.Valid() && cache.start == 0
      requires Readable(cache.Bytes(), parsed)
      modifies this`handed, this`device, tcp, cache, cache.v
      ensures tcp.Valid() && cache.Valid()
      ensures Forwarder() == TcpNatRuns.RunFrom(tcp.port, old(Forwarder()), TcpEvent(old(cache.Bytes()), parsed))
      ensures device == old(device) + Answer(old(cache.Bytes()), parsed, takesPing)
      ensures var delivery := Deliver(old(cache.Bytes()), parsed, takesPing);
              && retained == !delivery.Nothing?
              && handed == old(handed) + (if retained then [Handed(delivery, cache)] else [])
              && (delivery.Datagram? ==> cache.Bytes() == delivery.payload)
              && (delivery.Ping? ==> cache.Bytes() == delivery.message)
    {
      hide Transport, FlowOf, EchoReply, SentBack, IsEcho, Source, Destination, Whole;
      hide TcpNat.TcpPacket, TcpNat.Process, TcpNatRuns.RunFrom;
      RunOfNothing(tcp.port, Forwarder());
      var n := cache.end;
      var p := cache.v[0..n];
      assert p == cache.Bytes();
      match Version(p) {
        case 4 =>
          if p[9] == TCP {
            RunOfPacket(tcp.port, Forwarder(), V4, p);
            tcp.ProcessIPv4(cache.v, n);
          } else if p[9] == UDP {
            var _ := ProcessUdp(V4, cache);
            return true;
          } else if p[9] == ICMP4 {
            var replier;
            retained, replier := ProcessIcmp(V4, cache, takesPing);
            return;
          }
        case 6 =>
          if parsed.None? {
            return false;
          }
          if parsed.value == TCP {
            RunOfPacket(tcp.port, Forwarder(), V6, p);
            tcp.ProcessIPv6(cache.v, n);
          } else if parsed.value == UDP {
            var _ := ProcessUdp(V6, cache);
            return true;
          } else if parsed.value == ICMP6 {
            var replier;
            retained, replier := ProcessIcmp(V6, cache, takesPing);
            return;
          }
        case _ =>
      }
      return false;
    }

    /** A buffer still holds exactly what it was handed over for. */
    ghost predicate Intact(h: Handed)
      reads h.buffer, h.buffer.v
    {
      && h.buffer.Valid()
      && (h.delivery.Datagram? ==> h.buffer.Bytes() == h.delivery.payload)
      && (h.delivery.Ping? ==> h.buffer.Bytes() == h.delivery.message)
    }

    /** Reading until the device ends. A buffer is read into again only while no handler has
        it: at the end the hand-overs are exactly those the packets call for, in order,
        every buffer in a handler's hands is intact, and no two share memory. The forwarder
        has run on exactly the TCP packets read, and every refused ping is answered. */
    method DispatchLoop(mtu: nat, inputs: seq<Read>)
      requires tcp.Valid() && handed == []
      requires forall r :: r in inputs ==> |r.bytes| <= mtu && |r.bytes| <= SIZE && Readable(r.bytes, r.parsed)
      modifies this`handed, this`device, tcp
      ensures tcp.Valid()
      ensures Forwarder() == TcpNatRuns.RunFrom(tcp.port, old(Forwarder()), TcpEvents(inputs))
      ensures device == old(device) + Answers(inputs)
      ensures |handed| == |Deliveries(inputs)|
      ensures forall i :: 0 <= i < |handed| ==> handed[i].delivery == Deliveries(inputs)[i] && Intact(handed[i])
      ensures forall i, j :: 0 <= i < j < |handed| ==> handed[i].buffer.v != handed[j].buffer.v
    {
      hide Readable, Deliver, Intact, TcpEvent, Answer, TcpEvents, Answers, Deliveries, TcpNatRuns.RunFrom;
      NoReads();
      assert inputs[..0] == [];
      RunOfNothing(tcp.port, Forwarder());
      var cache := new Buffer.New(mtu);
      var i := 0;
      while i < |inputs|
        invariant 0 <= i <= |inputs| && tcp.Valid()
        invariant Forwarder() == TcpNatRuns.RunFrom(tcp.port, old(Forwarder()), TcpEvents(inputs[..i]))
        invariant device == old(device) + Answers(inputs[..i])
        invariant fresh(cache) && fresh(cache.v)
        invariant cache.v.Length == mtu || cache.v.Length == SIZE
        invariant |handed| == |Deliveries(inputs[..i])|
        invariant forall k :: 0 <= k < |handed| ==>
                    && fresh(handed[k].buffer) && fresh(handed[k].buffer.v)
                    && handed[k].buffer != cache && handed[k].buffer.v != cache.v
        invariant forall k :: 0 <= k < |handed| ==>
                    handed[k].delivery == Deliveries(inputs[..i])[k] && Intact(handed[k])
        invariant forall k, m :: 0 <= k < m < |handed| ==> handed[k].buffer.v != handed[m].buffer.v
      {
        NextRead(inputs, i);
        RunOneMore(tcp.port, old(Forwarder()), TcpEvents(inputs[..i]), TcpEvent(inputs[i].bytes, inputs[i].parsed));
        cache := ReadPacket(cache, inputs[i]);
        i := i + 1;
      }
      assert inputs[..i] == inputs;
    }

    /** One turn of the loop: the buffer for the next read is the same one, or a new one if
        this one was handed over. */
    method ReadPacket(cache: Buffer, r: Read) returns (next: Buffer)
      requires tcp.Valid() && |r.bytes| <= cache.v.Length && Readable(r.bytes, r.parsed)
      modifies this`handed, this`device, tcp, cache, cache.v
      ensures tcp.Valid()
      ensures Forwarder() == TcpNatRuns.RunFrom(tcp.port, old(Forwarder()), TcpEvent(r.bytes, r.parsed))
      ensures device == old(device) + Answer(r.bytes, r.parsed, r.takesPing)
      ensures var d := Deliver(r.bytes, r.parsed, r.takesPing);
              && handed == old(handed) + (if d.Nothing? then [] else [Handed(d, cache)])
              && (d.Nothing? ==> next == cache)
              && (!d.Nothing? ==> Intact(Handed(d, cache)) && fresh(next) && fresh(next.v) && next.v.Length == SIZE)
    {
      hide Readable, Deliver, TcpEvent, Answer, TcpNatRuns.RunFrom;
      PutBytes(cache.v, 0, cache.v.Length, 0, r.bytes);
      cache.Clear();
      cache.Resize(0, |r.bytes|);
      assert cache.Bytes() == r.bytes;
      var retained := DeliverPacket(cache, r.parsed, r.takesPing);
      next := cache;
      if retained {
        next := new Buffer.New(SIZE);
        var _ := next.Extend(SIZE);
      }
    }
  }
}
