/** IPv4 and IPv6 packets as the packet library's header views see them: field offsets
    (section 3.1 of RFC 791, section 3 of RFC 8200), pseudo headers (section 3.1 of
    RFC 9293, section 8.1 of RFC 8200) and checksum validity. */
module IpPacket {
  import opened Bytes
  import opened OnesComplement

  datatype Family = V4 | V6

  type Address = seq<Byte>

  const TCP: Byte := 6
  const UDP: Byte := 17
  const ICMP4: Byte := 1
  const ICMP6: Byte := 58

  const UDP_HEADER := 8

  datatype Endpoint = Endpoint(address: Address, port: U16)

  function AddressLength(f: Family): nat { if f == V4 then 4 else 16 }

  function SourceOffset(f: Family): nat { if f == V4 then 12 else 8 }

  function DestinationOffset(f: Family): nat { if f == V4 then 16 else 24 }

  function MinimumHeader(f: Family): nat { if f == V4 then 20 else 40 }

  function HeaderLength(f: Family, p: seq<Byte>): nat
    requires |p| >= MinimumHeader(f)
  {
    if f == V4 then (p[0] % 16) * 4 else 40
  }

  function PayloadLength(f: Family, p: seq<Byte>): (n: int)
    requires |p| >= MinimumHeader(f)
    ensures n < 0x1_0000
  {
    if f == V4 then U16At(p, 2) - HeaderLength(f, p) else U16At(p, 4)
  }

  /** The header is complete and the payload it announces was read. */
  predicate WellFormed(f: Family, p: seq<Byte>) {
    && |p| >= MinimumHeader(f)
    && HeaderLength(f, p) >= MinimumHeader(f)
    && 0 <= PayloadLength(f, p)
    && HeaderLength(f, p) + PayloadLength(f, p) <= |p|
  }

  function Source(f: Family, p: seq<Byte>): (a: Address)
    requires |p| >= MinimumHeader(f)
    ensures |a| == AddressLength(f)
  {
    p[SourceOffset(f)..SourceOffset(f) + AddressLength(f)]
  }

  function Destination(f: Family, p: seq<Byte>): (a: Address)
    requires |p| >= MinimumHeader(f)
    ensures |a| == AddressLength(f)
  {
    p[DestinationOffset(f)..DestinationOffset(f) + AddressLength(f)]
  }

  /** An IPv4 address in IPv6 clothes is reduced to its four bytes (`net.IP.To4`). */
  function Normalized(a: Address): Address {
    if IsMapped(a) then a[12..] else a
  }

  predicate IsMapped(a: Address) {
    |a| == 16 && (forall i :: 0 <= i < 10 ==> a[i] == 0) && a[10] == 0xff && a[11] == 0xff
  }

  function Transport(f: Family, p: seq<Byte>): (t: seq<Byte>)
    requires WellFormed(f, p)
    ensures |t| == PayloadLength(f, p)
  {
    p[HeaderLength(f, p)..HeaderLength(f, p) + PayloadLength(f, p)]
  }

  /** The endpoints of one direction of a TCP or UDP conversation. */
  datatype Flow = Flow(source: Address, sourcePort: U16, destination: Address, destinationPort: U16)
  {
    function Reverse(): Flow {
      Flow(destination, destinationPort, source, sourcePort)
    }
  }

  predicate HasPorts(f: Family, p: seq<Byte>) {
    WellFormed(f, p) && PayloadLength(f, p) >= 4
  }

  function FlowOf(f: Family, p: seq<Byte>): (flow: Flow)
    requires HasPorts(f, p)
    ensures |flow.source| == |flow.destination| == AddressLength(f)
  {
    var h := HeaderLength(f, p);
    Flow(Source(f, p), U16At(p, h), Destination(f, p), U16At(p, h + 2))
  }

  /** Where the standards put the fields of an IPv4 packet: the length in words in the first byte,
      the total length behind the second, 12 bytes before the addresses, options, and the ports. */
  lemma LayoutOfV4(first: Byte, tos: Byte, total: U16, middle: seq<Byte>, source: Address, destination: Address,
                   options: seq<Byte>, sourcePort: U16, destinationPort: U16, rest: seq<Byte>)
    requires |middle| == 8 && |source| == |destination| == 4 && |options| % 4 == 0
    requires first == 0x45 + |options| / 4 && first < 0x50
    requires total == 20 + |options| + 4 + |rest|
    ensures var p := [first, tos] + BigEndian(total) + middle + source + destination + options
                     + BigEndian(sourcePort) + BigEndian(destinationPort) + rest;
            && HasPorts(V4, p) && HeaderLength(V4, p) == 20 + |options| && PayloadLength(V4, p) == 4 + |rest|
            && FlowOf(V4, p) == Flow(source, sourcePort, destination, destinationPort)
  {
    var p := [first, tos] + BigEndian(total) + middle + source + destination + options
             + BigEndian(sourcePort) + BigEndian(destinationPort) + rest;
    var h := 20 + |options|;
    assert p[0] == first && p[2] == total / 0x100 && p[3] == total % 0x100;
    assert HeaderLength(V4, p) == h;
    assert Source(V4, p) == source && Destination(V4, p) == destination;
    assert p[h..h + 2] == BigEndian(sourcePort) && p[h + 2..h + 4] == BigEndian(destinationPort);
    assert p[h] == p[h..h + 2][0] && p[h + 1] == p[h..h + 2][1];
    assert p[h + 2] == p[h + 2..h + 4][0] && p[h + 3] == p[h + 2..h + 4][1];
  }

  /** And of an IPv6 packet: the payload length behind 4 bytes, the addresses behind 8. */
  lemma LayoutOfV6(start: seq<Byte>, length: U16, next: seq<Byte>, source: Address, destination: Address,
                   sourcePort: U16, destinationPort: U16, rest: seq<Byte>)
    requires |start| == 4 && |next| == 2 && |source| == |destination| == 16 && length == 4 + |rest|
    ensures var p := start + BigEndian(length) + next + source + destination
                     + BigEndian(sourcePort) + BigEndian(destinationPort) + rest;
            && HasPorts(V6, p) && HeaderLength(V6, p) == 40 && PayloadLength(V6, p) == length
            && FlowOf(V6, p) == Flow(source, sourcePort, destination, destinationPort)
  {
    var p := start + BigEndian(length) + next + source + destination
             + BigEndian(sourcePort) + BigEndian(destinationPort) + rest;
    assert p[4] == length / 0x100 && p[5] == length % 0x100;
    assert Source(V6, p) == source && Destination(V6, p) == destination;
    assert p[40..42] == BigEndian(sourcePort) && p[42..44] == BigEndian(destinationPort);
    assert p[40] == p[40..42][0] && p[41] == p[40..42][1];
    assert p[42] == p[42..44][0] && p[43] == p[42..44][1];
  }

  function BigEndian(v: U16): (b: seq<Byte>)
    ensures |b| == 2
  {
    [v / 0x100, v % 0x100]
  }

  // ---- Checksums ----

  /** The pseudo header as the standards lay it out. */
  function PseudoHeader(f: Family, source: Address, destination: Address, protocol: Byte, length: U16): seq<Byte> {
    var len := [length / 0x100, length % 0x100];
    if f == V4 then source + destination + ([0, protocol] + len)
    else source + destination + ([0, 0] + len + [0, 0, 0, protocol])
  }

  /** By offset: the addresses, a zero byte, the protocol and the length for IPv4 (RFC 9293); the
      addresses, the length in 32 bits, 24 zero bits and the protocol for IPv6 (RFC 8200). */
  lemma PseudoHeaderLayout(f: Family, source: Address, destination: Address, protocol: Byte, length: U16)
    requires |source| == |destination| == if f == V4 then 4 else 16
    ensures var h := PseudoHeader(f, source, destination, protocol, length);
      && (f == V4 ==> |h| == 12 && h[..4] == source && h[4..8] == destination
                      && h[8] == 0 && h[9] == protocol && U16At(h, 10) == length)
      && (f == V6 ==> |h| == 40 && h[..16] == source && h[16..32] == destination
                      && U16At(h, 32) == 0 && U16At(h, 34) == length
                      && h[36] == h[37] == h[38] == 0 && h[39] == protocol)
  {
    var h := PseudoHeader(f, source, destination, protocol, length);
    var a := source + destination;
    assert forall k :: |a| <= k < |h| ==> h[k] == h[|a|..][k - |a|];
  }

  /** The library's pseudo header checksum, the same for both families. */
  function PseudoHeaderChecksum(protocol: Byte, source: Address, destination: Address, length: U16): U16 {
    Checksum([0, protocol], Checksum([length / 0x100, length % 0x100], Checksum(destination, Checksum(source, 0))))
  }

  lemma WordSumOfLength(length: U16)
    ensures WordSum([length / 0x100, length % 0x100]) == length
  {
    WordSumOfWord(length / 0x100, length % 0x100);
  }

  lemma PseudoHeaderSum(f: Family, source: Address, destination: Address, protocol: Byte, length: U16)
    requires |source| % 2 == 0 && |destination| % 2 == 0
    ensures WordSum(PseudoHeader(f, source, destination, protocol, length))
         == WordSum(source) + WordSum(destination) + length + protocol
  {
    hide WordSum;
    var len := [length / 0x100, length % 0x100];
    WordSumAppend(source, destination);
    WordSumOfLength(length);
    WordSumOfWord(0, protocol);
    WordSumOfWord(0, 0);
    if f == V4 {
      WordSumAppend(source + destination, [0, protocol] + len);
      WordSumAppend([0, protocol], len);
    } else {
      assert [0, 0, 0, protocol] == [0, 0] + [0, protocol];
      WordSumAppend(source + destination, [0, 0] + len + [0, 0, 0, protocol]);
      WordSumAppend([0, 0] + len, [0, 0, 0, protocol]);
      WordSumAppend([0, 0], len);
      WordSumAppend([0, 0], [0, protocol]);
    }
  }

  /** The chained checksum represents the sum of its parts, whatever the addresses' lengths. */
  lemma PseudoHeaderChecksumIsSum(source: Address, destination: Address, protocol: Byte, length: U16)
    ensures PseudoHeaderChecksum(protocol, source, destination, length)
         == Fold(WordSum(source) + WordSum(destination) + length + protocol)
  {
    hide WordSum, Fold, Checksum;
    var len := [length / 0x100, length % 0x100];
    var a, b := WordSum(source), WordSum(destination);
    ChecksumIsFold(source, 0);
    ChecksumContinues(destination, a);
    ChecksumContinues(len, a + b);
    ChecksumContinues([0, protocol], a + b + length);
    WordSumOfLength(length);
    WordSumOfWord(0, protocol);
  }

  /** The chained checksum is the representative of the standard's pseudo header sum,
      although the IPv6 layout of length and protocol differs. */
  lemma PseudoHeaderChecksumIsFold(f: Family, source: Address, destination: Address, protocol: Byte, length: U16)
    requires |source| % 2 == 0 && |destination| % 2 == 0
    ensures PseudoHeaderChecksum(protocol, source, destination, length)
         == Fold(WordSum(PseudoHeader(f, source, destination, protocol, length)))
  {
    hide WordSum, Fold, PseudoHeaderChecksum, PseudoHeader;
    PseudoHeaderChecksumIsSum(source, destination, protocol, length);
    PseudoHeaderSum(f, source, destination, protocol, length);
  }

  /** What `copy` takes of an address for a header field. */
  function Fit(f: Family, a: Address): (r: Address)
    ensures |r| <= AddressLength(f)
  {
    if |a| <= AddressLength(f) then a else a[..AddressLength(f)]
  }

  /** The words that are added for a UDP pseudo header, whatever the lengths of the addresses. */
  function PseudoWords(source: Address, destination: Address, length: U16): nat {
    WordSum(source) + WordSum(destination) + length + UDP
  }

  /** Where one address's words were summed and another is in the header, the receiver's check
      holds exactly if the two have the same sum modulo 0xFFFF. */
  lemma OnesForEither(f: Family, given: Address, emitted: Address, destination: Address, n: U16, body: nat)
    requires |emitted| == |destination| == AddressLength(f)
    requires SumsToOnes(PseudoWords(given, destination, n) + body)
    ensures SumsToOnes(WordSum(PseudoHeader(f, emitted, destination, UDP, n)) + body)
       <==> (WordSum(emitted) - WordSum(given)) % 0xFFFF == 0
  {
    hide WordSum, SumsToOnes, PseudoHeader;
    PseudoHeaderSum(f, emitted, destination, UDP, n);
    OnesCongruent(PseudoWords(given, destination, n) + body, PseudoWords(emitted, destination, n) + body);
  }

  /** What an IPv4 receiver checks; an IPv6 header has no checksum. */
  predicate HeaderChecksumValid(f: Family, p: seq<Byte>)
    requires WellFormed(f, p)
  {
    f == V4 ==> SumsToOnes(WordSum(p[..HeaderLength(f, p)]))
  }

  /** What a TCP, UDP or ICMPv6 receiver checks: pseudo header and segment. */
  predicate SegmentChecksumValid(f: Family, protocol: Byte, p: seq<Byte>)
    requires WellFormed(f, p)
  {
    var n := PayloadLength(f, p);
    SumsToOnes(WordSum(PseudoHeader(f, Source(f, p), Destination(f, p), protocol, n)) + WordSum(Transport(f, p)))
  }

  // ---- Field positions ----

  /** Offsets of the two addresses. */
  predicate InAddresses(f: Family, k: nat) {
    || SourceOffset(f) <= k < SourceOffset(f) + AddressLength(f)
    || DestinationOffset(f) <= k < DestinationOffset(f) + AddressLength(f)
  }

  /** The IPv4 header checksum field. */
  predicate InHeaderChecksum(f: Family, k: nat) {
    f == V4 && 10 <= k < 12
  }

  /** Two packets of one size that agree outside addresses, header checksum and the
      transport header's first `m` bytes have the same layout. */
  lemma SameLayout(f: Family, p: seq<Byte>, q: seq<Byte>, m: nat)
    requires WellFormed(f, p) && |q| == |p|
    requires forall k | 0 <= k < |p| ::
               (InAddresses(f, k) || InHeaderChecksum(f, k) || HeaderLength(f, p) <= k < HeaderLength(f, p) + m)
               || q[k] == p[k]
    ensures WellFormed(f, q) && HeaderLength(f, q) == HeaderLength(f, p) && PayloadLength(f, q) == PayloadLength(f, p)
  {
    assert q[0] == p[0];
    if f == V4 {
      assert q[2] == p[2] && q[3] == p[3];
    } else {
      assert q[4] == p[4] && q[5] == p[5];
    }
  }

  lemma SameSource(f: Family, p: seq<Byte>, q: seq<Byte>)
    requires |p| >= MinimumHeader(f) && |q| >= MinimumHeader(f)
    requires forall k :: SourceOffset(f) <= k < SourceOffset(f) + AddressLength(f) ==> p[k] == q[k]
    ensures Source(f, p) == Source(f, q)
  {
    var lo, hi := SourceOffset(f), SourceOffset(f) + AddressLength(f);
    assert forall k :: 0 <= k < hi - lo ==> p[lo..hi][k] == p[lo + k] == q[lo + k] == q[lo..hi][k];
  }

  lemma SameDestination(f: Family, p: seq<Byte>, q: seq<Byte>)
    requires |p| >= MinimumHeader(f) && |q| >= MinimumHeader(f)
    requires forall k :: DestinationOffset(f) <= k < DestinationOffset(f) + AddressLength(f) ==> p[k] == q[k]
    ensures Destination(f, p) == Destination(f, q)
  {
    var lo, hi := DestinationOffset(f), DestinationOffset(f) + AddressLength(f);
    assert forall k :: 0 <= k < hi - lo ==> p[lo..hi][k] == p[lo + k] == q[lo + k] == q[lo..hi][k];
  }

  // ---- Setting checksums ----

  /** `SetChecksum(0); SetChecksum(^CalculateChecksum())` on an IPv4 header. */
  function WithHeaderChecksum(f: Family, p: seq<Byte>): (q: seq<Byte>)
    requires |p| >= MinimumHeader(f) && MinimumHeader(f) <= HeaderLength(f, p) <= |p|
    ensures |q| == |p|
    ensures forall k :: 0 <= k < |p| && !InHeaderChecksum(f, k) ==> q[k] == p[k]
  {
    if f == V6 then p
    else
      var z := SetU16(p, 10, 0);
      SetU16(z, 10, Not(Checksum(z[..HeaderLength(f, z)], 0)))
  }

  /** The same, through a slice. */
  method SetHeaderChecksum(a: array<Byte>, lo: nat, hi: nat)
    requires lo + 20 <= hi <= a.Length && 20 <= HeaderLength(V4, a[lo..hi]) <= hi - lo
    modifies a
    ensures a[lo..hi] == WithHeaderChecksum(V4, old(a[lo..hi]))
    ensures a[..lo] == old(a[..lo]) && a[hi..] == old(a[hi..])
  {
    hide Checksum, SetU16;
    PutU16(a, lo, hi, 10, 0);
    var header := a[lo..hi];
    var h := HeaderLength(V4, header);
    PutU16(a, lo, hi, 10, Not(Checksum(header[..h], 0)));
  }

  /** A recomputed header checksum makes the header sum to ones. */
  lemma HeaderChecksumCompletes(f: Family, p: seq<Byte>)
    requires |p| >= MinimumHeader(f) && MinimumHeader(f) <= HeaderLength(f, p) <= |p|
    ensures var q := WithHeaderChecksum(f, p);
            && (forall k :: 0 <= k < |p| && !(f == V4 && 10 <= k < 12) ==> q[k] == p[k])
            && HeaderLength(f, q) == HeaderLength(f, p)
            && (f == V4 ==> SumsToOnes(WordSum(q[..HeaderLength(f, p)])))
  {
    if f == V4 {
      hide WordSum, Checksum, Fold, SetU16;
      var h := HeaderLength(f, p);
      var z := SetU16(p, 10, 0);
      var q := WithHeaderChecksum(f, p);
      assert q[0] == z[0] == p[0];
      assert U16At(z[..h], 10) == 0;
      ChecksumIsFold(z[..h], 0);
      StoredChecksumCompletes(z[..h], 10, 0);
      SetInPrefix(z, h, 10, Not(Fold(WordSum(z[..h]))));
    }
  }

  lemma SetInPrefix(s: seq<Byte>, n: nat, i: nat, v: U16)
    requires i + 2 <= n <= |s|
    ensures SetU16(s, i, v)[..n] == SetU16(s[..n], i, v)
  {
  }
}
