/** UDP and ping replies on the gVisor stack (gvisor/udp.go, gvisor/icmp.go): packets are lists of
    views, and checksums are accumulated view by view. */
module GvisorReply {
  import opened Bytes
  import opened OnesComplement
  import opened IpPacket
  import opened IcmpReply

  // ---- Sums over views ----

  function Flat(views: seq<seq<Byte>>): seq<Byte> {
    if views == [] then [] else views[0] + Flat(views[1..])
  }

  function SumOfViews(views: seq<seq<Byte>>): nat {
    if views == [] then 0 else WordSum(views[0]) + SumOfViews(views[1..])
  }

  predicate EvenButLast(views: seq<seq<Byte>>) {
    forall i :: 0 <= i < |views| - 1 ==> |views[i]| % 2 == 0
  }

  /** Summing view by view is summing the bytes if all views but the last have even length. */
  lemma {:induction false} ViewsSumUp(views: seq<seq<Byte>>)
    requires EvenButLast(views)
    ensures SumOfViews(views) == WordSum(Flat(views))
  {
    hide WordSum;
    if |views| == 1 {
      assert views[1..] == [];
      assert Flat(views) == views[0];
      assert SumOfViews(views) == WordSum(views[0]);
    } else if |views| > 1 {
      ViewsSumUp(views[1..]);
      WordSumAppend(views[0], Flat(views[1..]));
    } else {
      WordSumNothing();
    }
  }

  lemma WordSumNothing()
    ensures WordSum([]) == 0
  {
  }

  lemma OneView(b: seq<Byte>)
    ensures Flat([b]) == b && SumOfViews([b]) == WordSum(b)
  {
    hide WordSum;
    assert [b][1..] == [];
    ViewsSumUp([b]);
  }

  /** An odd view in front of another shifts the words behind it: two views of one byte sum to
      what their concatenation sums to only if the second byte is 0. */
  lemma OddViewShifts(x: Byte, y: Byte)
    ensures SumOfViews([[x], [y]]) == WordSum(Flat([[x], [y]])) <==> y == 0
  {
    var views: seq<seq<Byte>> := [[x], [y]];
    var tail := views[1..];
    assert tail == [[y]];
    assert Flat(tail) == [y] && SumOfViews(tail) == (y as int) * 0x100 by {
      assert |tail[1..]| == 0;
    }
    assert Flat(views) == [x, y];
    WordSumOfWord(x, y);
  }

  /** The loop over the views. */
  method SumViews(views: seq<seq<Byte>>, initial: U16) returns (xsum: U16)
    ensures xsum == Fold(initial + SumOfViews(views))
  {
    hide Fold, WordSum, Checksum;
    xsum := initial;
    FoldOfU16(initial);
    var i := 0;
    while i < |views|
      invariant i <= |views|
      invariant Fold(xsum + SumOfViews(views[i..])) == Fold(initial + SumOfViews(views))
      invariant Fold(xsum) == xsum
    {
      assert views[i..][1..] == views[i + 1..];
      var next := Checksum(views[i], xsum);
      ChecksumIsFold(views[i], xsum);
      FoldAbsorbs(xsum + WordSum(views[i]), SumOfViews(views[i + 1..]));
      FoldOfU16(next);
      xsum := next;
      i := i + 1;
    }
  }

  lemma FoldOfU16(x: U16)
    ensures Fold(x) == x
  {
  }

  // ---- UDP ----

  const UDP_MAXIMUM_PACKET_SIZE := 65535

  /** A header summed after its data and completed; it stores 0 exactly if the sum without the
      checksum is 0xFFFF. `body` is the sum of pseudo header and data. */
  lemma HeaderCompletes(cleared: seq<Byte>, body: nat)
    requires |cleared| == UDP_HEADER && U16At(cleared, 6) == 0
    ensures var sum := Checksum(cleared, Fold(body));
            && SumsToOnes(body + WordSum(SetU16(cleared, 6, Not(sum))))
            && (Not(sum) == 0 <==> SumsToOnes(body + WordSum(cleared)))
  {
    hide WordSum, Checksum, SetU16, Fold, SumsToOnes;
    ChecksumContinues(cleared, body);
    StoredChecksumCompletes(cleared, 6, body);
    ZeroWhenOnes(body + WordSum(cleared));
  }

  lemma ZeroWhenOnes(n: nat)
    ensures Not(Fold(n)) == 0 <==> SumsToOnes(n)
  {
  }

  /** The sum that the checksum of a segment completes: the words of the given addresses, length
      and protocol, the header, and the views one by one. */
  function SentSum(local: Address, remote: Address, header: seq<Byte>, views: seq<seq<Byte>>): nat
    requires |header| == UDP_HEADER
  {
    PseudoWords(local, remote, U16At(header, 4)) + SumOfViews(views) + WordSum(header)
  }

  /** A UDP header without a checksum. */
  method NewHeader(localPort: U16, remotePort: U16, length: U16) returns (header: array<Byte>)
    ensures fresh(header) && header.Length == UDP_HEADER
    ensures U16At(header[0..8], 0) == localPort && U16At(header[0..8], 2) == remotePort
    ensures U16At(header[0..8], 4) == length && U16At(header[0..8], 6) == 0
  {
    hide SetU16;
    header := new Byte[8];
    PutU16(header, 0, 8, 0, localPort);
    PutU16(header, 0, 8, 2, remotePort);
    PutU16(header, 0, 8, 4, length);
    PutU16(header, 0, 8, 6, 0);
  }

  /** The 8-byte header is built with a zero checksum; IPv6 then gets one unless the link does it.
      The one it gets is 0 again, which IPv6 forbids, exactly if the sum without it is 0xFFFF. */
  method SendUdp(f: Family, local: Address, remote: Address, views: seq<seq<Byte>>, localPort: U16, remotePort: U16,
                 offload: bool)
      returns (segment: seq<Byte>)
    ensures |segment| == UDP_HEADER + |Flat(views)| && segment[UDP_HEADER..] == Flat(views)
    ensures U16At(segment, 0) == localPort && U16At(segment, 2) == remotePort
    ensures U16At(segment, 4) == |segment| <==> |Flat(views)| <= 0xFFFF - UDP_HEADER
    ensures if f == V6 && !offload then
              var header := segment[..UDP_HEADER];
              && SumsToOnes(SentSum(local, remote, header, views))
              && (U16At(segment, 6) == 0 <==> SumsToOnes(SentSum(local, remote, SetU16(header, 6, 0), views)))
            else U16At(segment, 6) == 0
  {
    hide Fold, WordSum, Checksum, SetU16, SumsToOnes, PseudoHeaderChecksum, U16At;
    var length := Truncate(UDP_HEADER + |Flat(views)|);
    var header := NewHeader(localPort, remotePort, length);
    ghost var cleared := header[0..8];
    if f == V6 && !offload {
      var xsum := PseudoHeaderChecksum(UDP, local, remote, length);
      PseudoHeaderChecksumIsSum(local, remote, UDP, length);
      xsum := SumViews(views, xsum);
      ghost var pseudo := PseudoWords(local, remote, length);
      FoldAbsorbs(pseudo, SumOfViews(views));
      HeaderCompletes(cleared, pseudo + SumOfViews(views));
      var sum := Checksum(header[0..8], xsum);
      PutU16(header, 0, 8, 6, Not(sum));
      SetTwice(cleared, 6, Not(sum), 0);
      SetSame(cleared, 6);
      OtherFieldsStay(cleared, Not(sum));
    }
    segment := header[0..8] + Flat(views);
    assert segment[..UDP_HEADER] == header[0..8];
    FieldsInFront(header[0..8], Flat(views));
  }

  lemma OtherFieldsStay(header: seq<Byte>, v: U16)
    requires |header| == UDP_HEADER
    ensures var h := SetU16(header, 6, v);
      U16At(h, 0) == U16At(header, 0) && U16At(h, 2) == U16At(header, 2) && U16At(h, 4) == U16At(header, 4)
  {
  }

  lemma FieldsInFront(header: seq<Byte>, data: seq<Byte>)
    requires |header| == UDP_HEADER
    ensures var s := header + data;
      && U16At(s, 0) == U16At(header, 0) && U16At(s, 2) == U16At(header, 2)
      && U16At(s, 4) == U16At(header, 4) && U16At(s, 6) == U16At(header, 6)
  {
  }

  lemma SetSame(s: seq<Byte>, i: nat)
    requires i + 2 <= |s|
    ensures SetU16(s, i, U16At(s, i)) == s
  {
  }

  /** An address in a header field that was zero before. */
  function Padded(f: Family, a: Address): (r: Address)
    ensures |r| == AddressLength(f)
    ensures r == a <==> |a| == AddressLength(f)
  {
    var fit := Fit(f, a);
    fit + seq(AddressLength(f) - |fit|, _ => 0)
  }

  lemma {:induction false} ZerosAddNothing(a: seq<Byte>, zeros: seq<Byte>)
    requires forall i :: 0 <= i < |zeros| ==> zeros[i] == 0
    ensures WordSum(a + zeros) == WordSum(a)
    decreases |a|
  {
    if |a| >= 2 {
      assert (a + zeros)[2..] == a[2..] + zeros;
      ZerosAddNothing(a[2..], zeros);
    } else if |a| == 0 {
      assert a + zeros == zeros;
      WordSumZero(zeros);
    } else if zeros == [] {
      assert a + zeros == a;
    } else {
      assert (a + zeros)[2..] == zeros[1..];
      WordSumZero(zeros[1..]);
    }
  }

  /** What an IPv6 receiver makes of a segment that was sent from any address in any views: the
      address in the header is the given one padded or cut, and the checksum is valid exactly if
      the two differences, of the addresses and of the views from their bytes, cancel out. */
  lemma ReceivedExactly(local: Address, remote: Address, views: seq<seq<Byte>>, segment: seq<Byte>)
    requires |remote| == AddressLength(V6)
    requires |segment| >= UDP_HEADER && segment[UDP_HEADER..] == Flat(views)
    requires SumsToOnes(SentSum(local, remote, segment[..UDP_HEADER], views))
    ensures SumsToOnes(WordSum(PseudoHeader(V6, Padded(V6, local), remote, UDP, U16At(segment, 4))) + WordSum(segment))
       <==> (WordSum(Padded(V6, local)) - WordSum(local) + WordSum(Flat(views)) - SumOfViews(views)) % 0xFFFF == 0
  {
    hide WordSum, SumsToOnes, PseudoHeader, Padded, Flat, SumOfViews, U16At, SentSum, PseudoWords;
    SumReceived(local, remote, views, segment);
    OnesCongruent(SentSum(local, remote, segment[..UDP_HEADER], views),
                  WordSum(PseudoHeader(V6, Padded(V6, local), remote, UDP, U16At(segment, 4))) + WordSum(segment));
  }

  /** How what the receiver sums differs from what was summed. */
  lemma SumReceived(local: Address, remote: Address, views: seq<seq<Byte>>, segment: seq<Byte>)
    requires |remote| == AddressLength(V6)
    requires |segment| >= UDP_HEADER && segment[UDP_HEADER..] == Flat(views)
    ensures var sent := SentSum(local, remote, segment[..UDP_HEADER], views);
            var pseudo := PseudoHeader(V6, Padded(V6, local), remote, UDP, U16At(segment, 4));
            var received := WordSum(pseudo) + WordSum(segment);
            && sent > 0 && received > 0
            && received - sent
               == WordSum(Padded(V6, local)) - WordSum(local) + WordSum(Flat(views)) - SumOfViews(views)
  {
    hide WordSum, PseudoHeader, Padded, Flat, SumOfViews;
    var header := segment[..UDP_HEADER];
    assert U16At(header, 4) == U16At(segment, 4);
    hide U16At;
    assert segment == header + Flat(views);
    WordSumAppend(header, Flat(views));
    PseudoHeaderSum(V6, Padded(V6, local), remote, UDP, U16At(segment, 4));
  }

  /** So with views even but for the last it is valid for every address that is not too long; one
      that is too short arrives with zeros behind it. */
  lemma ShortAddressIsValid(local: Address, remote: Address, views: seq<seq<Byte>>, segment: seq<Byte>)
    requires |local| <= AddressLength(V6) == |remote| && EvenButLast(views)
    requires |segment| >= UDP_HEADER && segment[UDP_HEADER..] == Flat(views)
    requires SumsToOnes(SentSum(local, remote, segment[..UDP_HEADER], views))
    ensures SumsToOnes(WordSum(PseudoHeader(V6, Padded(V6, local), remote, UDP, U16At(segment, 4))) + WordSum(segment))
    ensures Padded(V6, local) == local + seq(AddressLength(V6) - |local|, _ => 0)
  {
    hide WordSum, SumsToOnes, PseudoHeader, SentSum;
    ReceivedExactly(local, remote, views, segment);
    ViewsSumUp(views);
    ZerosAddNothing(local, seq(AddressLength(V6) - |local|, _ => 0));
  }

  /** What the checksum of an IPv6 segment with one view is worth: it completes the sum with the
      address as given, is zero only where that sum wants it, and holds for the receiver exactly if
      the address that arrives has the same sum. */
  ghost predicate Sealed(source: Address, destination: Address, b: seq<Byte>, segment: seq<Byte>)
    requires |segment| >= UDP_HEADER
  {
    var header, emitted := segment[..UDP_HEADER], Padded(V6, source);
    && SumsToOnes(SentSum(source, destination, header, [b]))
    && (U16At(segment, 6) == 0 <==> SumsToOnes(SentSum(source, destination, SetU16(header, 6, 0), [b])))
    && var pseudo := PseudoHeader(V6, emitted, destination, UDP, U16At(segment, 4));
       (SumsToOnes(WordSum(pseudo) + WordSum(segment)) <==> (WordSum(emitted) - WordSum(source)) % 0xFFFF == 0)
  }

  lemma SealedWith(source: Address, destination: Address, b: seq<Byte>, segment: seq<Byte>)
    requires |destination| == AddressLength(V6)
    requires |segment| >= UDP_HEADER && segment[UDP_HEADER..] == b
    requires var header := segment[..UDP_HEADER];
      && SumsToOnes(SentSum(source, destination, header, [b]))
      && (U16At(segment, 6) == 0 <==> SumsToOnes(SentSum(source, destination, SetU16(header, 6, 0), [b])))
    ensures Sealed(source, destination, b, segment)
  {
    hide WordSum, SumsToOnes, PseudoHeader, SentSum, SetU16, U16At, Padded, Flat, SumOfViews;
    OneView(b);
    ReceivedExactly(source, destination, [b], segment);
  }

  datatype WriteResult = Written(size: nat) | TooLong | NoRoute

  /** The reply path of a UDP packet that the stack delivered. */
  class UdpPacket {
    const f: Family
    /** The original destination and source. */
    const local: Endpoint
    const remote: Endpoint
    /** Segments handed to the route, with the route's addresses. */
    var sent: seq<(Address, Address, seq<Byte>)>

    ghost predicate Valid() {
      |local.address| == |remote.address| == AddressLength(f)
    }

    constructor (f: Family, local: Endpoint, remote: Endpoint)
      requires |local.address| == |remote.address| == AddressLength(f)
      ensures Valid() && this.f == f && this.local == local && this.remote == remote && sent == []
    {
      this.f, this.local, this.remote, sent := f, local, remote, [];
    }

    /** Sends a payload back from a given address, by default the original destination. An IPv6
        receiver finds the source that address, padded or cut to 16 bytes, and the checksum valid
        exactly if that has the sum of the address as given. */
    method WriteBack(b: seq<Byte>, addr: Option<Endpoint>, routed: bool, offload: bool) returns (r: WriteResult)
      requires Valid()
      modifies this`sent
      ensures var from := if addr.None? then local else addr.value;
        match r
        case TooLong => |b| > 0xFFFF && sent == old(sent)
        case NoRoute => !routed && |b| <= 0xFFFF && sent == old(sent)
        case Written(n) =>
          && routed && n == |b| <= 0xFFFF
          && |sent| == |old(sent)| + 1 && sent[..|old(sent)|] == old(sent)
          && var (source, destination, segment) := sent[|old(sent)|];
          && source == from.address && destination == remote.address
          && |segment| == UDP_HEADER + |b| && segment[UDP_HEADER..] == b
          && U16At(segment, 0) == from.port && U16At(segment, 2) == remote.port
          && (U16At(segment, 4) == |segment| <==> |b| <= 0xFFFF - UDP_HEADER)
          && (if f == V6 && !offload then Sealed(source, destination, b, segment) else U16At(segment, 6) == 0)
    {
      if |b| > UDP_MAXIMUM_PACKET_SIZE {
        return TooLong;
      }
      var from := if addr.None? then local else addr.value;
      if !routed {
        return NoRoute;
      }
      hide SumsToOnes, SentSum, SetU16, U16At, Flat, Sealed;
      OneView(b);
      var segment := SendUdp(f, from.address, remote.address, [b], from.port, remote.port, offload);
      if f == V6 && !offload {
        SealedWith(from.address, remote.address, b, segment);
      }
      sent := sent + [(from.address, remote.address, segment)];
      r := Written(|b|);
    }
  }

  // ---- ICMP ----

  /** Exchanging the addresses does not change a pseudo header's sum. */
  lemma PseudoHeaderIsSymmetric(f: Family, a: Address, b: Address, length: U16)
    requires |a| == |b| == AddressLength(f)
    ensures IcmpSeed(f, a, b, length) == IcmpSeed(f, b, a, length)
  {
    if f == V6 {
      hide WordSum, Fold, PseudoHeaderChecksum, PseudoHeader;
      PseudoHeaderChecksumIsFold(f, a, b, ICMP6, length);
      PseudoHeaderChecksumIsFold(f, b, a, ICMP6, length);
      PseudoHeaderSum(f, a, b, ICMP6, length);
      PseudoHeaderSum(f, b, a, ICMP6, length);
    }
  }

  /** The ICMP checksum from a header view and the checksum of the data behind it. */
  function SplitIcmpSum(f: Family, hdr: seq<Byte>, data: seq<Byte>, source: Address, destination: Address): U16
    requires |hdr| >= 4
  {
    var payload :=
      if f == V4 then Checksum(data, 0)
      else Combine(IcmpSeed(f, source, destination, Truncate(|hdr| + |data|)), Checksum(data, 0));
    Checksum(hdr[4..], Checksum(hdr[..2], payload))
  }

  /** It is the checksum of the whole message, if the header view has even length. */
  lemma SplitIsWhole(f: Family, hdr: seq<Byte>, data: seq<Byte>, source: Address, destination: Address)
    requires |hdr| >= 4 && |hdr| % 2 == 0 && |source| == |destination| == AddressLength(f)
    ensures SplitIcmpSum(f, hdr, data, source, destination) == IcmpSum(f, hdr + data, source, destination)
  {
    hide WordSum, Fold, SumsToOnes, Checksum, SetU16, PseudoSum, IcmpSeed, Combine;
    var icmp := hdr + data;
    var n := Truncate(|icmp|);
    var p := PseudoSum(f, source, destination, n);
    IcmpSeedIsFold(f, source, destination, n);
    SkippedFieldCompletes(icmp, p);
    ChecksumIsFold(data, 0);
    CombineAdds(p, WordSum(data));
    if f == V4 {
      NoPseudoSum(source, destination, n);
    }
    SkippedFieldCompletes(hdr, p + WordSum(data));
    assert SetU16(icmp, 2, 0) == SetU16(hdr, 2, 0) + data;
    WordSumAppend(SetU16(hdr, 2, 0), data);
  }

  lemma NoPseudoSum(source: Address, destination: Address, n: U16)
    ensures PseudoSum(V4, source, destination, n) == 0
  {
  }

  /** Turning a packet changes its header view only. */
  function TurnedHeader(f: Family, net: seq<Byte>): (q: seq<Byte>)
    requires |net| >= MinimumHeader(f) && HeaderLength(f, net) == |net|
    ensures |q| == |net|
  {
    var a := SetBytes(net, SourceOffset(f), Destination(f, net));
    WithHeaderChecksum(f, SetBytes(a, DestinationOffset(f), Source(f, net)))
  }

  lemma TurnedIsHeader(f: Family, net: seq<Byte>, rest: seq<Byte>)
    requires |net| >= MinimumHeader(f) && HeaderLength(f, net) == |net|
    requires WellFormed(f, net + rest)
    ensures Turned(f, net + rest) == TurnedHeader(f, net) + rest
  {
    hide WordSum, Checksum, SetU16, SetBytes, U16At;
    var p := net + rest;
    var source, destination := Source(f, net), Destination(f, net);
    SameSource(f, p, net);
    SameDestination(f, p, net);
    var a := SetBytes(net, SourceOffset(f), destination);
    var b := SetBytes(a, DestinationOffset(f), source);
    SetBytesInFront(net, rest, SourceOffset(f), destination);
    SetBytesInFront(a, rest, DestinationOffset(f), source);
    assert (b + rest)[0] == b[0] == net[0];
    if f == V4 {
      var z := SetU16(b, 10, 0);
      SetInFront(b, rest, 10, 0);
      assert (z + rest)[..|net|] == z[..|net|];
      SetInFront(z, rest, 10, Not(Checksum(z[..|net|], 0)));
    }
  }

  lemma SetBytesInFront(s: seq<Byte>, t: seq<Byte>, i: nat, b: seq<Byte>)
    requires i + |b| <= |s|
    ensures SetBytes(s + t, i, b) == SetBytes(s, i, b) + t
  {
  }

  lemma SetInFront(s: seq<Byte>, t: seq<Byte>, i: nat, v: U16)
    requires i + 2 <= |s|
    ensures SetU16(s + t, i, v) == SetU16(s, i, v) + t
  {
  }

  /** Answering a turned request changes its ICMP header view only. */
  lemma AnsweredInViews(f: Family, net: seq<Byte>, hdr: seq<Byte>, data: seq<Byte>)
    requires |net| >= MinimumHeader(f) && HeaderLength(f, net) == |net| && |hdr| >= 4 && |hdr| % 2 == 0
    requires var q := net + (hdr + data); WellFormed(f, q) && PayloadLength(f, q) == |hdr| + |data|
    ensures var q, h := net + (hdr + data), hdr[0 := EchoReplyType(f)];
      Answered(f, q) == net + (SetU16(h, 2, Not(SplitIcmpSum(f, h, data, Source(f, q), Destination(f, q)))) + data)
  {
    hide Checksum, SetU16, WordSum, IcmpSeed, Combine, SplitIcmpSum, IcmpSum;
    var q, h := net + (hdr + data), hdr[0 := EchoReplyType(f)];
    var n := |net|;
    var a := q[n := EchoReplyType(f)];
    assert a == net + (h + data);
    assert a[n..n + |hdr| + |data|] == h + data;
    SplitIsWhole(f, h, data, Source(f, q), Destination(f, q));
    var v := Not(SplitIcmpSum(f, h, data, Source(f, q), Destination(f, q)));
    SetBehind(net, h + data, 2, v);
    SetInFront(h, data, 2, v);
  }

  lemma SetBehind(s: seq<Byte>, t: seq<Byte>, i: nat, v: U16)
    requires i + 2 <= |t|
    ensures SetU16(s + t, |s| + i, v) == s + SetU16(t, i, v)
  {
  }

  /** A ping request in its views: network header, ICMP header, data. */
  class EchoRequest {
    const f: Family
    const net: array<Byte>
    const hdr: array<Byte>
    const data: seq<Byte>
    /** The request's destination and source. */
    const local: Address
    const remote: Address
    /** The start of the request as it came, for quoting. */
    const origin: seq<Byte>
    var device: seq<seq<Byte>>

    ghost predicate Valid()
      reads this, net, hdr
    {
      && net != hdr && MinimumHeader(f) <= net.Length && HeaderLength(f, net[..]) == net.Length
      && 4 <= hdr.Length && hdr.Length % 2 == 0
      && |local| == |remote| == AddressLength(f)
      && WellFormed(f, Whole()) && PayloadLength(f, Whole()) == RequestLength()
      && Source(f, Whole()) == local && Destination(f, Whole()) == remote
    }

    ghost function Whole(): seq<Byte>
      reads this, net, hdr
    {
      net[..] + (hdr[..] + data)
    }

    function RequestLength(): nat {
      hdr.Length + |data|
    }

    constructor (f: Family, net: array<Byte>, hdr: array<Byte>, data: seq<Byte>)
      requires net != hdr && hdr.Length >= 4 && hdr.Length % 2 == 0
      requires var p := net[..] + (hdr[..] + data);
        WellFormed(f, p) && HeaderLength(f, p) == net.Length && PayloadLength(f, p) == hdr.Length + |data|
      modifies net
      ensures Valid() && this.f == f && this.net == net && this.hdr == hdr && this.data == data && device == []
      ensures Whole() == Turned(f, old(net[..] + (hdr[..] + data)))
      ensures origin == old(net[..]) + (if hdr.Length > 8 then hdr[..8] else hdr[..])
    {
      hide SetBytes, WithHeaderChecksum, Turned, WordSum, SumsToOnes;
      ghost var p := net[..] + (hdr[..] + data);
      var header := net[..];
      assert header == p[..net.Length];
      this.f, this.net, this.hdr, this.data, device := f, net, hdr, data, [];
      local, remote := Destination(f, header), Source(f, header);
      origin := header + (if hdr.Length > 8 then hdr[..8] else hdr[..]);
      new;
      assert header == net[0..net.Length] && HeaderLength(f, header) == |header|;
      PutBytes(net, 0, net.Length, SourceOffset(f), Destination(f, header));
      PutBytes(net, 0, net.Length, DestinationOffset(f), Source(f, header));
      if f == V4 {
        assert net[0..net.Length][0] == header[0];
        SetHeaderChecksum(net, 0, net.Length);
      } else {
        HeaderChecksumV6(net[0..net.Length]);
      }
      assert net[..] == net[0..net.Length] == TurnedHeader(f, header);
      TurnedIsHeader(f, header, hdr[..] + data);
      TurnedIsValid(f, p);
      assert HeaderLength(f, Whole()) == HeaderLength(f, net[..]);
    }

    /** Answers the ping at once: type and checksum are written into the header view. */
    method Answer(deviceOk: bool)
      requires Valid()
      modifies this`device, hdr
      ensures Whole() == Answered(f, old(Whole()))
      ensures device == old(device) + if deviceOk then [Whole()] else []
    {
      hide SetU16, SplitIcmpSum, Answered, WellFormed, PayloadLength;
      ghost var header := hdr[..];
      AnsweredInViews(f, net[..], header, data);
      hdr[0] := EchoReplyType(f);
      assert hdr[0..hdr.Length] == header[0 := EchoReplyType(f)];
      PutU16(hdr, 0, hdr.Length, 2, Not(SplitIcmpSum(f, hdr[0..hdr.Length], data, local, remote)));
      assert hdr[..] == hdr[0..hdr.Length];
      if deviceOk {
        device := device + [net[..] + (hdr[..] + data)];
      }
    }

    /** Sends a message from the far end back under the turned header. IPv6 seals a message
        that is not rebuilt in place. */
    method WriteBack(message: array<Byte>, deviceOk: bool) returns (sent: Sent)
      requires Valid() && message != net && message != hdr
      requires message.Length >= 1 && (f == V6 ==> message.Length >= 4)
      modifies this`device, message
      ensures Valid() && Whole() == old(Whole())
      ensures var icmp := Outgoing(f, old(message[..]), [0, 0, 0, 0, 0, 0, 0, 0], origin);
        device == old(device) +
          if deviceOk then [Forwarded(f, net[..], RequestLength(), old(message[..]), icmp, local, remote)] else []
      ensures sent ==
        if !deviceOk then Refused
        else if old(message[0]) == UnreachableType(f) then Unreachable
        else Delivered
    {
      hide SetBytes, SetU16, IcmpSum, Relengthed, WordSum, SumsToOnes, Turned;
      ghost var received := message[..];
      var unreachable := message[0] == UnreachableType(f);
      var icmp := message;
      if unreachable {
        icmp := new Byte[ERROR_HEADER + |origin|](i => 0);
        Rebuild(icmp, message);
      }
      var outgoing := icmp[..];
      assert outgoing == Outgoing(f, received, [0, 0, 0, 0, 0, 0, 0, 0], origin);
      var header := net[..];
      if icmp.Length != RequestLength() {
        header := Relength(if f == V4 then message.Length else icmp.Length);
      }
      assert header == ForwardHeader(f, net[..], RequestLength(), |received|, |outgoing|);
      hide ForwardHeader, Outgoing;
      if f == V6 {
        assert icmp[0..icmp.Length] == outgoing;
        SumIsSymmetric(f, outgoing, remote, local);
        PutU16(icmp, 0, icmp.Length, 2, Not(IcmpSum(f, outgoing, remote, local)));
        assert icmp[..] == icmp[0..icmp.Length];
      }
      if deviceOk {
        device := device + [header + icmp[..]];
      }
      sent := if !deviceOk then Refused else if unreachable then Unreachable else Delivered;
    }

    method Rebuild(icmp: array<Byte>, message: array<Byte>)
      requires icmp != message && message.Length >= 1
      requires icmp.Length == ERROR_HEADER + |origin| && forall i :: 0 <= i < icmp.Length ==> icmp[i] == 0
      modifies icmp
      ensures icmp[..] == Quoted(message[..], [0, 0, 0, 0, 0, 0, 0, 0], origin)
    {
      hide SetBytes;
      ghost var before := icmp[0..icmp.Length];
      PutBytes(icmp, 0, icmp.Length, 0, Head(message[..]));
      PutBytes(icmp, 0, icmp.Length, ERROR_HEADER, origin);
      QuotedInPlace(before, message[..], [0, 0, 0, 0, 0, 0, 0, 0], origin);
      assert icmp[..] == icmp[0..icmp.Length];
    }

    /** A copy of the network header with its length changed. */
    method Relength(n: nat) returns (header: seq<Byte>)
      requires net.Length >= MinimumHeader(f)
      ensures header == Relengthed(f, net[..], n)
    {
      hide SetU16, Combine, Truncate;
      var back := new Byte[net.Length](i requires 0 <= i < net.Length reads net => net[i]);
      assert back[0..back.Length] == net[..];
      if f == V4 {
        var oldLength := U16At(back[0..back.Length], 2);
        PutU16(back, 0, back.Length, 2, Truncate(net.Length + n));
        var patched := back[0..back.Length];
        PutU16(back, 0, back.Length, 10,
               Not(Combine(Not(U16At(patched, 10)), Combine(U16At(patched, 2), Not(oldLength)))));
      } else {
        PutU16(back, 0, back.Length, 4, Truncate(n));
      }
      header := back[0..back.Length];
    }
  }

  /** The checksum is the same whichever address comes first. */
  lemma SumIsSymmetric(f: Family, icmp: seq<Byte>, a: Address, b: Address)
    requires |icmp| >= 4 && |a| == |b| == AddressLength(f)
    ensures IcmpSum(f, icmp, a, b) == IcmpSum(f, icmp, b, a)
  {
    hide Checksum, IcmpSeed;
    PseudoHeaderIsSymmetric(f, a, b, Truncate(|icmp|));
  }
}
