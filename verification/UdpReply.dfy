/** UDP replies of the system TUN: the header of the packet that opened the session is kept
    as a template, and every write-back copies it, patches the copy, emits it before the
    payload, and restores the scratch buffer. */
module UdpReply {
  import opened Bytes
  import opened OnesComplement
  import opened IpPacket
  import opened BufBuffer

  /** IP header and UDP header, and nothing else. */
  predicate IsTemplate(f: Family, t: seq<Byte>) {
    && |t| >= MinimumHeader(f) + UDP_HEADER
    && HeaderLength(f, t) + UDP_HEADER == |t|
  }

  // ---- The header of a reply ----

  /** Source address and IP length fields patched, IPv4 checksum recomputed. */
  function PatchedIp(f: Family, t: seq<Byte>, source: Address, size: nat): (h: seq<Byte>)
    requires IsTemplate(f, t)
    ensures IsTemplate(f, h) && |h| == |t|
  {
    var a := SetBytes(t, SourceOffset(f), Fit(f, source));
    if f == V4 then WithHeaderChecksum(V4, SetU16(a, 2, Truncate(|t| + size)))
    else SetU16(a, 4, Truncate(UDP_HEADER + size))
  }

  /** UDP source port and length patched, checksum cleared. */
  function PatchedUdp(h: seq<Byte>, port: U16, size: nat): (r: seq<Byte>)
    requires |h| >= UDP_HEADER
    ensures |r| == |h|
    ensures U16At(r, |h| - 8) == port && U16At(r, |h| - 6) == U16At(h, |h| - 6)
    ensures U16At(r, |h| - 4) == Truncate(UDP_HEADER + size) && U16At(r, |h| - 2) == 0
    ensures forall k :: 0 <= k < |h| - UDP_HEADER ==> r[k] == h[k]
  {
    hide SetU16;
    var u := |h| - UDP_HEADER;
    SetU16(SetU16(SetU16(h, u, port), u + 4, Truncate(UDP_HEADER + size)), u + 6, 0)
  }

  /** The sum of payload, pseudo header and UDP header, in the order the code adds them. */
  function UdpSum(h: seq<Byte>, source: Address, destination: Address, payload: seq<Byte>): U16
    requires |h| >= UDP_HEADER
  {
    Checksum(h[|h| - UDP_HEADER..],
             Checksum(payload, PseudoHeaderChecksum(UDP, source, destination, Truncate(UDP_HEADER + |payload|))))
  }

  /** The header emitted before `payload`. */
  function ReplyHeader(f: Family, t: seq<Byte>, destination: Address, source: Address, port: U16, payload: seq<Byte>)
      : (h: seq<Byte>)
    requires IsTemplate(f, t)
    ensures |h| == |t|
  {
    var h := PatchedUdp(PatchedIp(f, t, source, |payload|), port, |payload|);
    SetU16(h, |h| - 2, Not(UdpSum(h, source, destination, payload)))
  }

  // ---- What a reply is worth ----

  /** Offsets a write-back may patch in a template of length `n`. */
  predicate Patched(f: Family, n: nat, k: nat) {
    || SourceOffset(f) <= k < SourceOffset(f) + AddressLength(f)
    || InHeaderChecksum(f, k)
    || (if f == V4 then 2 <= k < 4 else 4 <= k < 6)
    || (n - UDP_HEADER <= k < n && !(n - 6 <= k < n - 4))
  }

  /** The source address that a reply carries: what fits of the given one, then what was there. */
  function Emitted(f: Family, t: seq<Byte>, source: Address): (r: Address)
    requires IsTemplate(f, t)
    ensures |r| == AddressLength(f)
    ensures r == source <==> |source| == AddressLength(f)
  {
    var fit := Fit(f, source);
    fit + Source(f, t)[|fit|..]
  }

  lemma PatchedIpFields(f: Family, t: seq<Byte>, source: Address, size: nat)
    requires IsTemplate(f, t)
    ensures var h := PatchedIp(f, t, source, size);
            && Source(f, h) == Emitted(f, t, source)
            && U16At(h, if f == V4 then 2 else 4) == Truncate(if f == V4 then |t| + size else UDP_HEADER + size)
            && (f == V4 ==> SumsToOnes(WordSum(h[..HeaderLength(f, t)])))
            && HeaderLength(f, h) == HeaderLength(f, t)
            && forall k :: 0 <= k < |t| && !Patched(f, |t|, k) ==> h[k] == t[k]
    ensures forall k :: HeaderLength(f, t) <= k < |t| ==> PatchedIp(f, t, source, size)[k] == t[k]
  {
    hide SetU16, SetBytes, WithHeaderChecksum;
    var a := SetBytes(t, SourceOffset(f), Fit(f, source));
    SourceWritten(f, t, source);
    if f == V4 {
      var b := SetU16(a, 2, Truncate(|t| + size));
      assert HeaderLength(f, b) == HeaderLength(f, t);
      HeaderChecksumCompletes(V4, b);
      SameSource(f, WithHeaderChecksum(V4, b), a);
    } else {
      SameSource(f, SetU16(a, 4, Truncate(UDP_HEADER + size)), a);
    }
  }

  lemma SourceWritten(f: Family, t: seq<Byte>, source: Address)
    requires IsTemplate(f, t)
    ensures Source(f, SetBytes(t, SourceOffset(f), Fit(f, source))) == Emitted(f, t, source)
  {
    hide SetBytes;
    var fit, lo := Fit(f, source), SourceOffset(f);
    var a := SetBytes(t, lo, fit);
    assert forall k :: 0 <= k < |fit| ==> a[lo + k] == a[lo..lo + |fit|][k] == fit[k];
    assert forall k :: 0 <= k < AddressLength(f) ==> Source(f, a)[k] == a[lo + k];
    assert forall k :: |fit| <= k < AddressLength(f) ==> Emitted(f, t, source)[k] == Source(f, t)[k] == t[lo + k];
  }

  /** The UDP header sums to ones with payload and pseudo header, although the payload,
      of either parity, is summed first. */
  lemma UdpChecksumCompletes(h: seq<Byte>, source: Address, destination: Address, payload: seq<Byte>)
    requires |h| >= UDP_HEADER && U16At(h, |h| - 2) == 0
    ensures var sum := UdpSum(h, source, destination, payload);
            var pseudo := PseudoWords(source, destination, Truncate(UDP_HEADER + |payload|));
            && sum == Fold(pseudo + WordSum(h[|h| - UDP_HEADER..] + payload))
            && SumsToOnes(pseudo + WordSum(SetU16(h, |h| - 2, Not(sum))[|h| - UDP_HEADER..] + payload))
  {
    hide WordSum, Fold, SumsToOnes, Checksum, PseudoHeaderChecksum, SetU16, Truncate;
    var n := Truncate(UDP_HEADER + |payload|);
    var u := h[|h| - UDP_HEADER..];
    var pseudo := PseudoWords(source, destination, n);
    PseudoHeaderChecksumIsSum(source, destination, UDP, n);
    var sum := Checksum(u, Checksum(payload, Fold(pseudo)));
    assert sum == UdpSum(h, source, destination, payload);
    assert U16At(u, 6) == 0;
    hide UdpSum, U16At;
    PayloadFirstCompletes(u, 6, payload, pseudo);
    SetInSuffix(h, |h| - UDP_HEADER, 6, Not(sum));
  }

  lemma ReplyHeaderSteps(f: Family, t: seq<Byte>, destination: Address, source: Address, port: U16, payload: seq<Byte>)
    requires IsTemplate(f, t)
    ensures var h := PatchedUdp(PatchedIp(f, t, source, |payload|), port, |payload|);
            ReplyHeader(f, t, destination, source, port, payload)
            == SetU16(h, |h| - 2, Not(UdpSum(h, source, destination, payload)))
  {
  }

  lemma ReplyHeaderFields(f: Family, t: seq<Byte>, destination: Address, source: Address, port: U16, payload: seq<Byte>)
    requires IsTemplate(f, t)
    ensures var h := ReplyHeader(f, t, destination, source, port, payload);
            var u := HeaderLength(f, t);
            && h[..u] == PatchedIp(f, t, source, |payload|)[..u]
            && U16At(h, u) == port && U16At(h, u + 2) == U16At(t, u + 2)
            && U16At(h, u + 4) == Truncate(UDP_HEADER + |payload|)
            && U16At(h, if f == V4 then 2 else 4)
               == Truncate(if f == V4 then |t| + |payload| else UDP_HEADER + |payload|)
            && HeaderLength(f, h) == u
            && Source(f, h) == Emitted(f, t, source)
            && forall k :: 0 <= k < |t| && !Patched(f, |t|, k) ==> h[k] == t[k]
  {
    hide PatchedIp, PatchedUdp, SetU16, UdpSum, ReplyHeader, Emitted;
    ReplyHeaderSteps(f, t, destination, source, port, payload);
    PatchedIpFields(f, t, source, |payload|);
    SameSource(f, ReplyHeader(f, t, destination, source, port, payload), PatchedIp(f, t, source, |payload|));
  }

  /** The largest payload a reply can announce. */
  function Capacity(f: Family, t: seq<Byte>): int {
    if f == V4 then 0xFFFF - |t| else 0xFFFF - UDP_HEADER
  }

  /** A reply: the emitted header and the payload. */
  function ReplyPacket(f: Family, t: seq<Byte>, source: Address, port: U16, payload: seq<Byte>): (q: seq<Byte>)
    requires IsTemplate(f, t)
    ensures |q| == |t| + |payload|
  {
    ReplyHeader(f, t, Destination(f, t), source, port, payload) + payload
  }

  /** How a reply that fits is put together. */
  lemma ReplyParts(f: Family, t: seq<Byte>, source: Address, port: U16, payload: seq<Byte>)
    requires IsTemplate(f, t) && |payload| <= Capacity(f, t)
    ensures var q := ReplyPacket(f, t, source, port, payload);
            var h := ReplyHeader(f, t, Destination(f, t), source, port, payload);
            && WellFormed(f, q)
            && HeaderLength(f, q) == HeaderLength(f, t) && PayloadLength(f, q) == UDP_HEADER + |payload|
            && Transport(f, q) == h[|t| - UDP_HEADER..] + payload
            && Source(f, q) == Emitted(f, t, source) && Destination(f, q) == Destination(f, t)
  {
    hide WordSum, PatchedIp, ReplyHeader, Emitted, Transport, Source, Destination;
    var h := ReplyHeader(f, t, Destination(f, t), source, port, payload);
    ReplyHeaderFields(f, t, Destination(f, t), source, port, payload);
    ReplyLayout(f, t, h, payload);
  }

  /** A reply whose payload fits is one well-formed datagram to the original sender, whatever
      address is given for its source: lengths and ports are right, the header checksum holds,
      the payload is untouched, and everything else is as in the template. */
  lemma ReplyIsWellFormed(f: Family, t: seq<Byte>, source: Address, port: U16, payload: seq<Byte>)
    requires IsTemplate(f, t) && |payload| <= Capacity(f, t)
    ensures var q := ReplyPacket(f, t, source, port, payload);
            && WellFormed(f, q)
            && HeaderLength(f, q) + PayloadLength(f, q) == |q|
            && U16At(Transport(f, q), 4) == PayloadLength(f, q) == UDP_HEADER + |payload|
            && Transport(f, q)[UDP_HEADER..] == payload
            && FlowOf(f, q) == Flow(Emitted(f, t, source), port, Destination(f, t), U16At(t, |t| - 6))
            && HeaderChecksumValid(f, q)
            && forall k :: 0 <= k < |t| && !Patched(f, |t|, k) ==> q[k] == t[k]
  {
    hide WordSum, SumsToOnes, PatchedIp, ReplyHeader, Patched, Emitted, Capacity;
    hide Source, Destination, WellFormed, PayloadLength, U16At;
    var u := |t| - UDP_HEADER;
    var r := ReplyHeader(f, t, Destination(f, t), source, port, payload);
    var q := r + payload;
    ReplyHeaderFields(f, t, Destination(f, t), source, port, payload);
    ReplyParts(f, t, source, port, payload);
    UdpFields(r, u, payload);
    assert q[..u] == r[..u];
    PatchedIpFields(f, t, source, |payload|);
  }

  lemma UdpFields(r: seq<Byte>, u: nat, payload: seq<Byte>)
    requires |r| == u + UDP_HEADER
    ensures var q, segment := r + payload, r[u..] + payload;
      && U16At(segment, 4) == U16At(r, u + 4) && segment[UDP_HEADER..] == payload
      && U16At(q, u) == U16At(r, u) && U16At(q, u + 2) == U16At(r, u + 2)
  {
  }

  /** Nothing else changes, by offset: the IPv4 total length, header checksum and source, or the
      IPv6 payload length and source, and of the UDP header all but the destination port. */
  lemma ReplyTouches(f: Family, t: seq<Byte>, source: Address, port: U16, payload: seq<Byte>, k: nat)
    requires IsTemplate(f, t) && |payload| <= Capacity(f, t) && k < |t|
    requires !(if f == V4 then 2 <= k < 4 || 10 <= k < 16 else 4 <= k < 6 || 8 <= k < 24)
    requires k < |t| - 8 || |t| - 6 <= k < |t| - 4
    ensures ReplyPacket(f, t, source, port, payload)[k] == t[k]
  {
    hide ReplyPacket, FlowOf, HeaderChecksumValid;
    ReplyIsWellFormed(f, t, source, port, payload);
  }

  /** Its UDP checksum, which is computed with the address as given, is valid exactly when the
      given and the emitted address have the same sum modulo 0xFFFF. */
  lemma ReplyChecksumExactly(f: Family, t: seq<Byte>, source: Address, port: U16, payload: seq<Byte>)
    requires IsTemplate(f, t) && |payload| <= Capacity(f, t)
    ensures var q := ReplyPacket(f, t, source, port, payload);
            && WellFormed(f, q)
            && (SegmentChecksumValid(f, UDP, q)
                <==> (WordSum(Emitted(f, t, source)) - WordSum(source)) % 0xFFFF == 0)
  {
    hide WordSum, SumsToOnes, PseudoHeader, PseudoWords, ReplyPacket, WellFormed, HeaderLength, PayloadLength;
    hide Transport, Source, Destination, ReplyHeader, Emitted;
    var r := ReplyHeader(f, t, Destination(f, t), source, port, payload);
    ReplyParts(f, t, source, port, payload);
    HeaderCompletes(f, t, source, port, payload);
    OnesForEither(f, source, Emitted(f, t, source), Destination(f, t), UDP_HEADER + |payload|,
                  WordSum(r[|t| - UDP_HEADER..] + payload));
  }

  lemma HeaderCompletes(f: Family, t: seq<Byte>, source: Address, port: U16, payload: seq<Byte>)
    requires IsTemplate(f, t)
    ensures var h := ReplyHeader(f, t, Destination(f, t), source, port, payload);
            SumsToOnes(PseudoWords(source, Destination(f, t), Truncate(UDP_HEADER + |payload|))
                       + WordSum(h[|h| - UDP_HEADER..] + payload))
  {
    hide WordSum, SumsToOnes, PatchedIp, PatchedUdp, SetU16, UdpSum, ReplyHeader, Destination, PseudoWords;
    ReplyHeaderSteps(f, t, Destination(f, t), source, port, payload);
    var h := PatchedUdp(PatchedIp(f, t, source, |payload|), port, |payload|);
    UdpChecksumCompletes(h, source, Destination(f, t), payload);
  }

  /** A reply whose payload fits and whose address is of the session's family comes from exactly
      the given endpoint with all checksums valid; with an address of any other length it does
      not come from there. */
  lemma ReplyIsValid(f: Family, t: seq<Byte>, source: Address, port: U16, payload: seq<Byte>)
    requires IsTemplate(f, t) && |payload| <= Capacity(f, t)
    ensures var q := ReplyPacket(f, t, source, port, payload);
            && WellFormed(f, q) && PayloadLength(f, q) >= UDP_HEADER
            && (FlowOf(f, q) == Flow(source, port, Destination(f, t), U16At(t, |t| - 6))
                <==> |source| == AddressLength(f))
            && (|source| == AddressLength(f) ==> HeaderChecksumValid(f, q) && SegmentChecksumValid(f, UDP, q))
  {
    hide ReplyPacket, FlowOf, WordSum, SumsToOnes, HeaderChecksumValid, SegmentChecksumValid, Emitted;
    ReplyIsWellFormed(f, t, source, port, payload);
    ReplyChecksumExactly(f, t, source, port, payload);
  }

  /** A patched header before its payload is laid out as the header says. */
  lemma ReplyLayout(f: Family, t: seq<Byte>, r: seq<Byte>, payload: seq<Byte>)
    requires IsTemplate(f, t) && |r| == |t| && HeaderLength(f, r) == HeaderLength(f, t)
    requires |payload| <= Capacity(f, t)
    requires U16At(r, if f == V4 then 2 else 4) == (if f == V4 then |t| + |payload| else UDP_HEADER + |payload|)
    requires forall k | 0 <= k < |t| :: Patched(f, |t|, k) || r[k] == t[k]
    ensures var q := r + payload;
            && WellFormed(f, q) && HeaderLength(f, q) == |t| - UDP_HEADER
            && PayloadLength(f, q) == UDP_HEADER + |payload|
            && Transport(f, q) == r[|t| - UDP_HEADER..] + payload
            && Source(f, q) == Source(f, r) && Destination(f, q) == Destination(f, t)
  {
    var q := r + payload;
    assert HeaderLength(f, q) == |t| - UDP_HEADER;
    SameSource(f, q, r);
    SameDestination(f, q, t);
  }

  /** The announced lengths are the true ones exactly up to that size. */
  lemma LengthFieldsAreExact(f: Family, t: seq<Byte>, source: Address, port: U16, payload: seq<Byte>)
    requires IsTemplate(f, t)
    ensures var h := ReplyHeader(f, t, Destination(f, t), source, port, payload);
            (&& U16At(h, |t| - 4) == UDP_HEADER + |payload|
             && U16At(h, if f == V4 then 2 else 4) == (if f == V4 then |t| + |payload| else UDP_HEADER + |payload|))
            <==> |payload| <= Capacity(f, t)
  {
    hide ReplyHeader, PatchedIp;
    ReplyHeaderFields(f, t, Destination(f, t), source, port, payload);
  }

  // ---- Addresses of the wrong length ----

  /** An IPv4 session given an IPv4 address in its 16-byte form: the reply claims to come from
      0.0.0.0, and its checksum is wrong unless the address happens to sum to zero. */
  lemma MappedSourceIsLost(t: seq<Byte>, source: Address, port: U16, payload: seq<Byte>)
    requires IsTemplate(V4, t) && |payload| <= Capacity(V4, t) && IsMapped(source)
    ensures var q := ReplyPacket(V4, t, source, port, payload);
            && WellFormed(V4, q) && Source(V4, q) == [0, 0, 0, 0]
            && (SegmentChecksumValid(V4, UDP, q) <==> WordSum(source[12..]) % 0xFFFF == 0)
  {
    hide WordSum, ReplyPacket, SegmentChecksumValid;
    ReplyIsWellFormed(V4, t, source, port, payload);
    ReplyChecksumExactly(V4, t, source, port, payload);
    assert Emitted(V4, t, source) == [0, 0, 0, 0];
    WordSumZero([0, 0, 0, 0]);
    var zeros: seq<Byte> := source[..10];
    assert source == zeros + ([0xff, 0xff] + source[12..]);
    WordSumAppend(zeros, [0xff, 0xff] + source[12..]);
    WordSumAppend([0xff, 0xff], source[12..]);
    WordSumOfWord(0xff, 0xff);
    WordSumZero(zeros);
  }

  /** An IPv6 session given a 4-byte address, as a packet from a domain source has it: the reply
      claims to come from those 4 bytes followed by the client's own last 12, and its checksum is
      wrong unless these happen to sum to zero. */
  lemma ShortSourceIsMixed(t: seq<Byte>, source: Address, port: U16, payload: seq<Byte>)
    requires IsTemplate(V6, t) && |payload| <= Capacity(V6, t) && |source| == 4
    ensures var q := ReplyPacket(V6, t, source, port, payload);
            && WellFormed(V6, q) && Source(V6, q) == source + Source(V6, t)[4..]
            && (SegmentChecksumValid(V6, UDP, q) <==> WordSum(Source(V6, t)[4..]) % 0xFFFF == 0)
  {
    hide WordSum, ReplyPacket, SegmentChecksumValid;
    ReplyIsWellFormed(V6, t, source, port, payload);
    ReplyChecksumExactly(V6, t, source, port, payload);
    WordSumAppend(source, Source(V6, t)[4..]);
  }

  // ---- A checksum of zero ----

  /** The exact sum of a reply's pseudo header, UDP header with cleared checksum, and payload. */
  function ReplySum(f: Family, t: seq<Byte>, source: Address, port: U16, payload: seq<Byte>): nat
    requires IsTemplate(f, t)
  {
    var h := PatchedUdp(PatchedIp(f, t, source, |payload|), port, |payload|);
    PseudoWords(source, Destination(f, t), Truncate(UDP_HEADER + |payload|)) + WordSum(h[|h| - UDP_HEADER..] + payload)
  }

  /** The checksum emitted is the complement of that sum's representative. A sum of 0xFFFF
      is emitted as zero, which a receiver reads as "no checksum" and which IPv6 forbids
      (section 8.1 of RFC 8200); the code does not replace it. */
  lemma ZeroChecksumExactly(f: Family, t: seq<Byte>, source: Address, port: U16, payload: seq<Byte>)
    requires IsTemplate(f, t)
    ensures var emitted := U16At(ReplyHeader(f, t, Destination(f, t), source, port, payload), |t| - 2);
            && emitted == Not(Fold(ReplySum(f, t, source, port, payload)))
            && (emitted == 0 <==> SumsToOnes(ReplySum(f, t, source, port, payload)))
  {
    hide WordSum, Fold, PatchedIp, PatchedUdp, UdpSum, PseudoWords, SetU16, ReplyHeader;
    var h := PatchedUdp(PatchedIp(f, t, source, |payload|), port, |payload|);
    ReplyHeaderSteps(f, t, Destination(f, t), source, port, payload);
    UdpChecksumCompletes(h, source, Destination(f, t), payload);
  }

  /** And it does happen: every payload of even length can be completed by one word. */
  lemma ZeroChecksumHappens(f: Family, t: seq<Byte>, source: Address, port: U16, body: seq<Byte>)
    returns (payload: seq<Byte>)
    requires IsTemplate(f, t) && |body| % 2 == 0
    ensures |payload| == |body| + 2 && payload[..|body|] == body
    ensures U16At(ReplyHeader(f, t, Destination(f, t), source, port, payload), |t| - 2) == 0
  {
    hide WordSum, Fold, PatchedIp, PatchedUdp, PseudoWords, ReplyHeader, SumsToOnes, Destination;
    var size := |body| + 2;
    var h := PatchedUdp(PatchedIp(f, t, source, size), port, size);
    var u := h[|h| - UDP_HEADER..];
    var rest := PseudoWords(source, Destination(f, t), Truncate(UDP_HEADER + size)) + WordSum(u + body);
    var w := Not(Fold(rest));
    var word := [w / 0x100, w % 0x100];
    payload := body + word;
    assert u + payload == (u + body) + word;
    WordSumAppend(u + body, word);
    WordSumOfLength(w);
    assert ReplySum(f, t, source, port, payload) == rest + w;
    hide ReplySum;
    NotCompletes(rest);
    ZeroChecksumExactly(f, t, source, port, payload);
  }

  /** A datagram of this flow that a receiver accepts. */
  ghost predicate Carries(f: Family, q: seq<Byte>, flow: Flow, payload: seq<Byte>) {
    && WellFormed(f, q) && HeaderLength(f, q) + PayloadLength(f, q) == |q|
    && PayloadLength(f, q) == 8 + |payload| == U16At(Transport(f, q), 4)
    && FlowOf(f, q) == flow && Transport(f, q)[8..] == payload
    && HeaderChecksumValid(f, q) && SegmentChecksumValid(f, UDP, q)
  }

  lemma ReplyCarries(f: Family, t: seq<Byte>, e: Endpoint, payload: seq<Byte>)
    requires IsTemplate(f, t) && |payload| <= Capacity(f, t)
    ensures var q, flow := ReplyPacket(f, t, e.address, e.port, payload),
                           Flow(Emitted(f, t, e.address), e.port, Destination(f, t), U16At(t, |t| - 6));
            && HasPorts(f, q) && FlowOf(f, q) == flow
            && (|e.address| == AddressLength(f) ==> flow.source == e.address && Carries(f, q, flow, payload))
  {
    hide ReplyPacket, FlowOf, Transport, SegmentChecksumValid, HeaderChecksumValid, Emitted;
    ReplyIsWellFormed(f, t, e.address, e.port, payload);
    ReplyIsValid(f, t, e.address, e.port, payload);
  }

  // ---- The write-back closure ----

  class Replier {
    const f: Family
    /** The original packet's endpoints. */
    const flow: Flow
    const headerCache: Buffer
    /** Datagrams written to the device, oldest first. */
    var device: seq<seq<Byte>>

    ghost predicate Valid()
      reads this, headerCache, headerCache.v
    {
      && headerCache.Valid()
      && headerCache.start == 0
      && 2 * headerCache.end <= headerCache.v.Length
      && IsTemplate(f, headerCache.Bytes())
      && |flow.source| == |flow.destination| == AddressLength(f)
      && Destination(f, headerCache.Bytes()) == flow.source
      && U16At(headerCache.Bytes(), headerCache.end - 6) == flow.sourcePort
    }

    /** The saved header. */
    ghost function Template(): seq<Byte>
      requires Valid()
      reads this, headerCache, headerCache.v
    {
      headerCache.Bytes()
    }

    /** The header of a packet already turned towards its sender is saved in a new buffer. */
    constructor (f: Family, flow: Flow, packetHeader: seq<Byte>)
      requires IsTemplate(f, packetHeader)
      requires |flow.source| == |flow.destination| == AddressLength(f)
      requires Destination(f, packetHeader) == flow.source && U16At(packetHeader, |packetHeader| - 6) == flow.sourcePort
      ensures Valid() && Template() == packetHeader && device == []
      ensures this.f == f && this.flow == flow && fresh(headerCache) && fresh(headerCache.v)
    {
      this.f, this.flow, device := f, flow, [];
      var cache := new Buffer.New(SIZE);
      assert HeaderLength(f, packetHeader) <= 60;
      var offset := cache.ExtendCopy(packetHeader);
      headerCache := cache;
    }

    /** The source of a reply: the given address, or the original destination. */
    function From(addr: Option<Endpoint>): Endpoint {
      match addr
      case Some(e) => e
      case None => Endpoint(flow.destination, flow.destinationPort)
    }

    function Reply(t: seq<Byte>, addr: Option<Endpoint>, payload: seq<Byte>): seq<Byte>
      requires IsTemplate(f, t)
    {
      ReplyHeader(f, t, flow.source, From(addr).address, From(addr).port, payload) + payload
    }

    /** Without an address the reply comes from where the original packet went, with one from
        there, and always it goes back to the original sender. */
    lemma ReplyEndpoints(t: seq<Byte>, addr: Option<Endpoint>, payload: seq<Byte>)
      requires IsTemplate(f, t) && |payload| <= Capacity(f, t)
      requires |flow.source| == |flow.destination| == AddressLength(f)
      requires Destination(f, t) == flow.source && U16At(t, |t| - 6) == flow.sourcePort
      ensures addr == None ==>
        Carries(f, Reply(t, addr, payload),
                Flow(flow.destination, flow.destinationPort, flow.source, flow.sourcePort), payload)
      ensures forall a: Address, port: U16 :: addr == Some(Endpoint(a, port)) ==>
        && HasPorts(f, Reply(t, addr, payload))
        && FlowOf(f, Reply(t, addr, payload)) == Flow(Emitted(f, t, a), port, flow.source, flow.sourcePort)
        && (|a| == AddressLength(f) ==>
              Carries(f, Reply(t, addr, payload), Flow(a, port, flow.source, flow.sourcePort), payload))
    {
      hide ReplyHeader, Carries, FlowOf, WellFormed, Emitted;
      ReplyCarries(f, t, From(addr), payload);
    }

    /** One write-back emits the reply to the template and leaves the template and the
        buffer's window exactly as they were, whether or not the device accepts it. */
    method WriteBack(payload: seq<Byte>, addr: Option<Endpoint>, deviceOk: bool) returns (n: Option<nat>)
      requires Valid()
      modifies this`device, headerCache, headerCache.v
      ensures Valid() && Template() == old(Template())
      ensures headerCache.start == old(headerCache.start) && headerCache.end == old(headerCache.end)
      ensures device == old(device) + (if deviceOk then [Reply(old(Template()), addr, payload)] else [])
      ensures n == if deviceOk then Some(|payload|) else None
      ensures deviceOk && |payload| <= Capacity(f, Template()) ==>
        var q := device[|device| - 1];
        && (addr == None ==>
              Carries(f, q, Flow(flow.destination, flow.destinationPort, flow.source, flow.sourcePort), payload))
        && forall a: Address, port: U16 :: addr == Some(Endpoint(a, port)) ==>
             && HasPorts(f, q) && FlowOf(f, q) == Flow(Emitted(f, Template(), a), port, flow.source, flow.sourcePort)
             && (|a| == AddressLength(f) ==> Carries(f, q, Flow(a, port, flow.source, flow.sourcePort), payload))
    {
      hide ReplyHeader, IsTemplate, Destination, U16At, FlowOf, Carries, Emitted, WellFormed;
      ghost var t := headerCache.Bytes();
      if |payload| <= Capacity(f, t) {
        ReplyEndpoints(t, addr, payload);
      }
      var index := headerCache.Len();
      var newSource := if addr.Some? then addr.value.address else flow.destination;
      var newPort := if addr.Some? then addr.value.port else flow.destinationPort;
      var header := Head(newSource, newPort, payload);
      if deviceOk {
        device := device + [header + payload];
        n := Some(|payload|);
      } else {
        n := None;
      }
      headerCache.Clear();
      headerCache.Resize(0, index);
      assert headerCache.Bytes() == t;
    }

    /** The header of a reply, patched in a copy of the template behind it. */
    method Head(source: Address, port: U16, payload: seq<Byte>) returns (header: seq<Byte>)
      requires Valid()
      modifies headerCache, headerCache.v
      ensures headerCache.v[..old(headerCache.end)] == old(Template())
      ensures header == ReplyHeader(f, old(Template()), flow.source, source, port, payload)
    {
      hide ReplyHeader, PatchedIp, PatchedUdp, UdpSum, SetU16;
      ghost var t := headerCache.Bytes();
      assert |t| >= UDP_HEADER;
      hide IsTemplate, HeaderLength, Destination, U16At;
      var index := headerCache.Len();
      var lo := headerCache.ExtendCopy(headerCache.Bytes());
      var hi := headerCache.end;
      headerCache.Advance(index);
      var v := headerCache.v;
      assert v[lo..hi] == t && v[..lo] == t;
      PatchIp(v, lo, hi, source, |payload|);
      PatchUdp(v, lo, hi, source, port, payload);
      header := v[lo..hi];
      ReplyHeaderSteps(f, t, flow.source, source, port, payload);
    }

    method PatchIp(v: array<Byte>, lo: nat, hi: nat, source: Address, size: nat)
      requires lo <= hi <= v.Length && IsTemplate(f, v[lo..hi])
      modifies v
      ensures v[lo..hi] == PatchedIp(f, old(v[lo..hi]), source, size)
      ensures v[..lo] == old(v[..lo])
    {
      hide WithHeaderChecksum, SetU16, SetBytes;
      PutBytes(v, lo, hi, SourceOffset(f), Fit(f, source));
      if f == V4 {
        PutU16(v, lo, hi, 2, Truncate(hi - lo + size));
        SetHeaderChecksum(v, lo, hi);
      } else {
        PutU16(v, lo, hi, 4, Truncate(UDP_HEADER + size));
      }
    }

    method PatchUdp(v: array<Byte>, lo: nat, hi: nat, source: Address, port: U16, payload: seq<Byte>)
      requires lo + UDP_HEADER <= hi <= v.Length
      modifies v
      ensures var h := PatchedUdp(old(v[lo..hi]), port, |payload|);
              v[lo..hi] == SetU16(h, |h| - 2, Not(UdpSum(h, source, flow.source, payload)))
      ensures v[..lo] == old(v[..lo])
    {
      hide Checksum, PseudoHeaderChecksum, SetU16;
      var udp := hi - lo - UDP_HEADER;
      var length := Truncate(UDP_HEADER + |payload|);
      PutU16(v, lo, hi, udp, port);
      PutU16(v, lo, hi, udp + 4, length);
      PutU16(v, lo, hi, udp + 6, 0);
      var header := v[lo..hi];
      var sum := Checksum(payload, PseudoHeaderChecksum(UDP, source, flow.source, length));
      PutU16(v, lo, hi, udp + 6, Not(Checksum(header[udp..], sum)));
    }

    /** The replies to a sequence of packets, each with the address it came from. */
    function Replies(t: seq<Byte>, packets: seq<(seq<Byte>, Option<Endpoint>)>, isDns: bool): (r: seq<seq<Byte>>)
      requires IsTemplate(f, t)
      ensures |r| == |packets|
    {
      hide Reply;
      if packets == [] then []
      else
        var last := packets[|packets| - 1];
        Replies(t, packets[..|packets| - 1], isDns) + [Reply(t, if isDns then None else last.1, last.0)]
    }

    lemma {:induction false} ReplyAt(t: seq<Byte>, packets: seq<(seq<Byte>, Option<Endpoint>)>, isDns: bool, i: nat)
      requires IsTemplate(f, t) && i < |packets|
      ensures Replies(t, packets, isDns)[i] == Reply(t, if isDns then None else packets[i].1, packets[i].0)
    {
      hide Reply;
      if i < |packets| - 1 {
        ReplyAt(t, packets[..|packets| - 1], isDns, i);
      }
    }

    /** What a session's replies carry: those of a DNS session, and those to packets without an
        address, the reverse of the original flow; the others the address of their own packet. */
    lemma RepliesCarry(t: seq<Byte>, packets: seq<(seq<Byte>, Option<Endpoint>)>, isDns: bool, i: nat)
      requires IsTemplate(f, t) && i < |packets| && |packets[i].0| <= Capacity(f, t)
      requires |flow.source| == |flow.destination| == AddressLength(f)
      requires Destination(f, t) == flow.source && U16At(t, |t| - 6) == flow.sourcePort
      ensures var q, payload, addr := Replies(t, packets, isDns)[i], packets[i].0, packets[i].1;
        && (isDns || addr == None ==>
              Carries(f, q, Flow(flow.destination, flow.destinationPort, flow.source, flow.sourcePort), payload))
        && forall a: Address, port: U16 :: !isDns && addr == Some(Endpoint(a, port)) ==>
             && HasPorts(f, q) && FlowOf(f, q) == Flow(Emitted(f, t, a), port, flow.source, flow.sourcePort)
             && (|a| == AddressLength(f) ==> Carries(f, q, Flow(a, port, flow.source, flow.sourcePort), payload))
    {
      hide Reply, Replies, Carries, FlowOf, WellFormed, Emitted, IsTemplate, Destination, U16At;
      ReplyAt(t, packets, isDns, i);
      ReplyEndpoints(t, if isDns then None else packets[i].1, packets[i].0);
    }

    /** The session's read loop: every packet that arrives is written back until the device
        refuses one. All replies are replies to one template. A DNS session answers from
        the original destination whatever the packet's source. */
    method ReadLoop(packets: seq<(seq<Byte>, Option<Endpoint>)>, isDns: bool, refusedAt: nat)
      requires Valid()
      modifies this`device, headerCache, headerCache.v
      ensures Valid() && Template() == old(Template())
      ensures var written := packets[..if refusedAt < |packets| then refusedAt else |packets|];
              && device == old(device) + Replies(old(Template()), written, isDns)
              && |device| == |old(device)| + |written|
      ensures forall i: nat :: i < |packets| && i < refusedAt && |packets[i].0| <= Capacity(f, Template()) ==>
        var q, payload, addr := device[|old(device)| + i], packets[i].0, packets[i].1;
        && (isDns || addr == None ==>
              Carries(f, q, Flow(flow.destination, flow.destinationPort, flow.source, flow.sourcePort), payload))
        && forall a: Address, port: U16 :: !isDns && addr == Some(Endpoint(a, port)) ==>
             && HasPorts(f, q) && FlowOf(f, q) == Flow(Emitted(f, Template(), a), port, flow.source, flow.sourcePort)
             && (|a| == AddressLength(f) ==> Carries(f, q, Flow(a, port, flow.source, flow.sourcePort), payload))
    {
      hide Reply, IsTemplate, Carries, FlowOf, WellFormed, Emitted;
      ghost var t := Template();
      var i := 0;
      while i < |packets|
        invariant 0 <= i <= |packets| && i <= refusedAt
        invariant Valid() && Template() == t && IsTemplate(f, t)
        invariant device == old(device) + Replies(t, packets[..i], isDns)
      {
        var n := WriteBack(packets[i].0, if isDns then None else packets[i].1, i != refusedAt);
        if n.None? {
          break;
        }
        i := i + 1;
        assert packets[..i][..i - 1] == packets[..i - 1];
      }
      ghost var written := packets[..if refusedAt < |packets| then refusedAt else |packets|];
      assert packets[..i] == written;
      forall k: nat | k < |written| && |written[k].0| <= Capacity(f, t) {
        RepliesCarry(t, written, isDns, k);
      }
    }
  }
}
