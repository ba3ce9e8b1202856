/** Ping replies of the system TUN: a request is turned round in place; either the handler
    takes it and later replies are sent under the saved header, or it is answered at once. */
module IcmpReply {
  import opened Bytes
  import opened OnesComplement
  import opened IpPacket
  import opened BufBuffer

  function EchoType(f: Family): Byte { if f == V4 then 8 else 128 }

  function EchoReplyType(f: Family): Byte { if f == V4 then 0 else 129 }

  function UnreachableType(f: Family): Byte { if f == V4 then 3 else 1 }

  const ERROR_HEADER := 8

  /** The request as the code accepts it; the packet was read whole. */
  predicate IsEcho(f: Family, p: seq<Byte>) {
    && WellFormed(f, p)
    && HeaderLength(f, p) + PayloadLength(f, p) == |p|
    && PayloadLength(f, p) >= 4
    && Transport(f, p)[0] == EchoType(f) && Transport(f, p)[1] == 0
  }

  // ---- Turning the request round ----

  function Turned(f: Family, p: seq<Byte>): (q: seq<Byte>)
    requires WellFormed(f, p)
    ensures |q| == |p|
    ensures forall k :: 0 <= k < |p| && !InAddresses(f, k) && !InHeaderChecksum(f, k) ==> q[k] == p[k]
  {
    WithHeaderChecksum(f, SetBytes(SetBytes(p, SourceOffset(f), Destination(f, p)), DestinationOffset(f), Source(f, p)))
  }

  lemma TurnedIsValid(f: Family, p: seq<Byte>)
    requires WellFormed(f, p)
    ensures var q := Turned(f, p);
            && WellFormed(f, q)
            && HeaderLength(f, q) == HeaderLength(f, p) && PayloadLength(f, q) == PayloadLength(f, p)
            && Source(f, q) == Destination(f, p) && Destination(f, q) == Source(f, p)
            && Transport(f, q) == Transport(f, p)
            && HeaderChecksumValid(f, q)
  {
    hide SetBytes, SetU16, WithHeaderChecksum, WordSum, SumsToOnes;
    var a := SetBytes(p, SourceOffset(f), Destination(f, p));
    var b := SetBytes(a, DestinationOffset(f), Source(f, p));
    var q := Turned(f, p);
    assert Source(f, b) == Source(f, a);
    HeaderChecksumCompletes(f, b);
    assert Source(f, q) == Source(f, b) && Destination(f, q) == Destination(f, b);
    SameLayout(f, p, q, 0);
  }

  // ---- The immediate answer ----

  /** The words an ICMP checksum covers besides the message: IPv6 includes the pseudo
      header, IPv4 does not. */
  function PseudoSum(f: Family, source: Address, destination: Address, length: U16): nat {
    if f == V4 then 0 else WordSum(PseudoHeader(f, source, destination, ICMP6, length))
  }

  /** What an ICMP receiver checks. */
  predicate IcmpValid(f: Family, p: seq<Byte>)
    requires WellFormed(f, p)
  {
    SumsToOnes(PseudoSum(f, Source(f, p), Destination(f, p), PayloadLength(f, p)) + WordSum(Transport(f, p)))
  }

  /** For IPv6 the checksum of a segment of protocol 58, for IPv4 that of the message alone. */
  lemma IcmpValidIs(f: Family, p: seq<Byte>)
    requires WellFormed(f, p)
    ensures IcmpValid(f, p) <==>
      if f == V6 then SegmentChecksumValid(V6, 58, p) else SumsToOnes(WordSum(Transport(f, p)))
  {
    hide WordSum, SumsToOnes;
  }

  function IcmpSeed(f: Family, source: Address, destination: Address, length: U16): U16 {
    if f == V4 then 0 else PseudoHeaderChecksum(ICMP6, source, destination, length)
  }

  /** The ICMP checksum, computed around its own field. */
  function IcmpSum(f: Family, icmp: seq<Byte>, source: Address, destination: Address): U16
    requires |icmp| >= 4
  {
    Checksum(icmp[4..], Checksum(icmp[..2], IcmpSeed(f, source, destination, Truncate(|icmp|))))
  }

  lemma IcmpSeedIsFold(f: Family, source: Address, destination: Address, length: U16)
    requires |source| == |destination| == AddressLength(f)
    ensures IcmpSeed(f, source, destination, length) == Fold(PseudoSum(f, source, destination, length))
  {
    if f == V6 {
      hide Fold, WordSum, PseudoHeaderChecksum, PseudoHeader;
      PseudoHeaderChecksumIsFold(f, source, destination, ICMP6, length);
    }
  }

  lemma IcmpSumCompletes(f: Family, icmp: seq<Byte>, source: Address, destination: Address)
    requires 4 <= |icmp| < 0x1_0000 && |source| == |destination| == AddressLength(f)
    ensures SumsToOnes(PseudoSum(f, source, destination, |icmp|)
                       + WordSum(SetU16(icmp, 2, Not(IcmpSum(f, icmp, source, destination)))))
  {
    hide WordSum, Fold, SumsToOnes, Checksum, SetU16, PseudoSum, IcmpSeed;
    IcmpSeedIsFold(f, source, destination, |icmp|);
    SkippedFieldCompletes(icmp, PseudoSum(f, source, destination, |icmp|));
  }

  /** Type and checksum of a turned request set for the answer. */
  function Answered(f: Family, q: seq<Byte>): (r: seq<Byte>)
    requires WellFormed(f, q) && PayloadLength(f, q) >= 4
    ensures |r| == |q|
  {
    var h := HeaderLength(f, q);
    var a := q[h := EchoReplyType(f)];
    var icmp := a[h..h + PayloadLength(f, q)];
    SetU16(a, h + 2, Not(IcmpSum(f, icmp, Source(f, q), Destination(f, q))))
  }

  /** The answer to a request. */
  function EchoReply(f: Family, p: seq<Byte>): (r: seq<Byte>)
    requires WellFormed(f, p) && PayloadLength(f, p) >= 4
    ensures |r| == |p|
  {
    hide Turned;
    TurnedIsValid(f, p);
    Answered(f, Turned(f, p))
  }

  /** A refused ping is answered with addresses exchanged, the same code, identifier, sequence
      number and data, valid checksums, and all other header bytes unchanged. */
  lemma AnswerIsValid(f: Family, p: seq<Byte>)
    requires WellFormed(f, p) && PayloadLength(f, p) >= 4
    ensures var r := EchoReply(f, p);
            && WellFormed(f, r) && |r| == |p|
            && Source(f, r) == Destination(f, p) && Destination(f, r) == Source(f, p)
            && Transport(f, r)[0] == EchoReplyType(f) && Transport(f, r)[1] == Transport(f, p)[1]
            && |Transport(f, r)| == |Transport(f, p)| && Transport(f, r)[4..] == Transport(f, p)[4..]
            && HeaderChecksumValid(f, r) && IcmpValid(f, r)
            && forall k :: 0 <= k < HeaderLength(f, p) && !InAddresses(f, k) && !InHeaderChecksum(f, k) ==> r[k] == p[k]
  {
    hide WordSum, SumsToOnes, IcmpSum, Turned, PseudoSum, SetU16, Answered, InAddresses;
    TurnedIsValid(f, p);
    var q := Turned(f, p);
    var h := HeaderLength(f, q);
    var icmp := Transport(f, q)[0 := EchoReplyType(f)];
    IcmpSumCompletes(f, icmp, Source(f, q), Destination(f, q));
    AnsweredParts(f, q);
    var r := Answered(f, q);
    assert r[..h] == q[..h];
    assert forall k :: 4 <= k < |icmp| ==> Transport(f, r)[k] == icmp[k] == Transport(f, p)[k];
  }

  /** The same by offset: the addresses are exchanged, the type is 0 or 129, and of the rest only
      the two checksums change. */
  lemma AnswerBytes(f: Family, p: seq<Byte>, k: nat)
    requires WellFormed(f, p) && PayloadLength(f, p) >= 4
    ensures var r, h := EchoReply(f, p), if f == V4 then p[0] % 16 * 4 else 40;
      && h < |p| == |r|
      && (if f == V4 then r[12..16] == p[16..20] && r[16..20] == p[12..16] && r[h] == 0
          else r[8..24] == p[24..40] && r[24..40] == p[8..24] && r[h] == 129)
      && (k < h + PayloadLength(f, p) && !(if f == V4 then 10 <= k < 20 else 8 <= k < 40)
            && k != h && k != h + 2 && k != h + 3 ==>
            r[k] == p[k])
  {
    hide Turned, Answered, SumsToOnes, WordSum, IcmpValid, HeaderChecksumValid, Transport;
    AnswerIsValid(f, p);
    TurnedIsValid(f, p);
    AnsweredParts(f, Turned(f, p));
    var r := EchoReply(f, p);
    TransportByte(f, r, 0);
    if HeaderLength(f, p) < k < HeaderLength(f, p) + PayloadLength(f, p) {
      TransportByte(f, p, k - HeaderLength(f, p));
      TransportByte(f, r, k - HeaderLength(f, p));
      SameTail(Transport(f, p), Transport(f, r), k - HeaderLength(f, p));
    }
  }

  lemma TransportByte(f: Family, p: seq<Byte>, k: nat)
    requires WellFormed(f, p) && k < PayloadLength(f, p)
    ensures Transport(f, p)[k] == p[HeaderLength(f, p) + k]
  {
  }

  lemma SameTail(s: seq<Byte>, t: seq<Byte>, k: nat)
    requires |s| == |t| >= 4 && s[4..] == t[4..]
    ensures 4 <= k < |s| ==> s[k] == t[k]
  {
    if 4 <= k < |s| {
      assert s[k] == s[4..][k - 4];
    }
  }

  lemma AnsweredParts(f: Family, q: seq<Byte>)
    requires WellFormed(f, q) && PayloadLength(f, q) >= 4
    ensures var r := Answered(f, q);
            var icmp := Transport(f, q)[0 := EchoReplyType(f)];
            && WellFormed(f, r)
            && HeaderLength(f, r) == HeaderLength(f, q) && PayloadLength(f, r) == PayloadLength(f, q)
            && Source(f, r) == Source(f, q) && Destination(f, r) == Destination(f, q)
            && Transport(f, r) == SetU16(icmp, 2, Not(IcmpSum(f, icmp, Source(f, q), Destination(f, q))))
            && forall k :: 0 <= k < HeaderLength(f, q) ==> r[k] == q[k]
  {
    hide SetU16, IcmpSum;
    var h := HeaderLength(f, q);
    var n := PayloadLength(f, q);
    var a := q[h := EchoReplyType(f)];
    var icmp := Transport(f, q)[0 := EchoReplyType(f)];
    assert a[h..h + n] == icmp;
    var sum := Not(IcmpSum(f, icmp, Source(f, q), Destination(f, q)));
    var r := SetU16(a, h + 2, sum);
    assert r == Answered(f, q);
    assert HeaderLength(f, r) == h;
    assert PayloadLength(f, r) == n;
    assert Transport(f, r) == r[h..h + n];
    SetInWindow(a, h, h + n, 2, sum);
    SameSource(f, r, q);
    SameDestination(f, r, q);
  }

  lemma SetInWindow(s: seq<Byte>, lo: nat, hi: nat, i: nat, v: U16)
    requires lo + i + 2 <= hi <= |s|
    ensures SetU16(s, lo + i, v)[lo..hi] == SetU16(s[lo..hi], i, v)
  {
  }

  // ---- Replies under the saved header ----

  /** The saved header announcing `n` bytes of payload; the IPv4 checksum is updated
      incrementally. */
  function Relengthed(f: Family, net: seq<Byte>, n: nat): (h: seq<Byte>)
    requires |net| >= MinimumHeader(f)
    ensures |h| == |net|
  {
    if f == V4 then
      var total := Truncate(|net| + n);
      SetU16(SetU16(net, 2, total), 10, Incremental(U16At(net, 10), U16At(net, 2), total))
    else SetU16(net, 4, Truncate(n))
  }

  /** The incremental update gives, bit for bit, the fully recomputed header. */
  lemma RelengthedIsRecomputed(p: seq<Byte>, n: nat)
    requires WellFormed(V4, p)
    ensures var net := WithHeaderChecksum(V4, p)[..HeaderLength(V4, p)];
            && HeaderLength(V4, SetU16(net, 2, Truncate(|net| + n))) == |net|
            && Relengthed(V4, net, n) == WithHeaderChecksum(V4, SetU16(net, 2, Truncate(|net| + n)))
  {
    hide WordSum, Fold, Checksum, Incremental, SetU16;
    var h := HeaderLength(V4, p);
    var z := SetU16(p, 10, 0)[..h];
    var m, m' := U16At(p, 2), Truncate(h + n);
    var net := WithHeaderChecksum(V4, p)[..h];
    var rest := WordSum(SetU16(z, 2, 0));
    ChecksumIsFold(z, 0);
    assert U16At(z, 2) == m;
    WordSumSet(z, 2, 0);
    assert WordSum(z) == rest + m;
    assert SetU16(p, 10, 0)[0] == p[0];
    assert U16At(net, 10) == Not(Fold(rest + m));
    assert U16At(net, 2) == m;
    assert rest > 0 by { WordSumZero(SetU16(z, 2, 0)); assert SetU16(z, 2, 0)[0] == p[0] != 0; }
    IncrementalAfterRecomputation(rest, m, m');
    var y := SetU16(net, 2, m');
    assert y[0] == p[0];
    var z' := SetU16(y, 10, 0);
    assert z' == SetU16(z, 2, m') by {
      assert forall k :: 0 <= k < h && k != 2 && k != 3 ==> z'[k] == z[k];
      TwoBytes(z', SetU16(z, 2, m'), 2);
    }
    WordSumSet(z, 2, m');
    ChecksumIsFold(z', 0);
    assert z'[..h] == z';
    SetTwice(y, 10, 0, Not(Fold(rest + m')));
  }

  /** Two sequences that agree outside one word, and in that word. */
  lemma TwoBytes(s: seq<Byte>, t: seq<Byte>, i: nat)
    requires |s| == |t| && i + 2 <= |s| && U16At(s, i) == U16At(t, i)
    requires forall k :: 0 <= k < |s| && k != i && k != i + 1 ==> s[k] == t[k]
    ensures s == t
  {
    assert s[i] == t[i] && s[i + 1] == t[i + 1];
  }

  /** The first bytes of a message, as many as `copy` fits into four. */
  function Head(message: seq<Byte>): (r: seq<Byte>)
    ensures |r| <= 4
  {
    if |message| <= 4 then message else message[..4]
  }

  /** An unreachable message rebuilt around the original request: four bytes of the
      message, four bytes of whatever the scratch memory held, then the quoted datagram. */
  function Quoted(message: seq<Byte>, scratch: seq<Byte>, origin: seq<Byte>): (r: seq<Byte>)
    requires |scratch| == ERROR_HEADER
    ensures |r| == ERROR_HEADER + |origin|
  {
    SetBytes(scratch, 0, Head(message)) + origin
  }

  /** The ICMP message that is sent for the one received. */
  function Outgoing(f: Family, message: seq<Byte>, scratch: seq<Byte>, origin: seq<Byte>): seq<Byte>
    requires |message| >= 1 && |scratch| == ERROR_HEADER
  {
    if message[0] == UnreachableType(f) then Quoted(message, scratch, origin) else message
  }

  /** A message goes out as it is, unless it says that something is unreachable (type 3 or 1): of
      that its first four bytes go out, what the scratch memory holds behind them, and the origin. */
  lemma OutgoingExactly(f: Family, message: seq<Byte>, scratch: seq<Byte>, origin: seq<Byte>)
    requires |message| >= 1 && |scratch| == 8
    ensures var icmp, unreachable := Outgoing(f, message, scratch, origin), if f == V4 then 3 else 1;
      && (message[0] != unreachable ==> icmp == message)
      && (message[0] == unreachable ==>
            && |icmp| == 8 + |origin| && icmp[8..] == origin && icmp[4..8] == scratch[4..]
            && forall k :: 0 <= k < 4 ==> icmp[k] == if k < |message| then message[k] else scratch[k])
  {
  }

  /** The saved header goes out as it is when the length is that of the request. */
  function ForwardHeader(f: Family, net: seq<Byte>, requestLength: nat, received: nat, sent: nat): (h: seq<Byte>)
    requires |net| >= MinimumHeader(f)
    ensures |h| == |net|
  {
    if sent == requestLength then net else Relengthed(f, net, if f == V4 then received else sent)
  }

  /** IPv6 recomputes the message's checksum; IPv4 passes it on. */
  function Resealed(f: Family, icmp: seq<Byte>, source: Address, destination: Address): (r: seq<Byte>)
    requires f == V6 ==> |icmp| >= 4
    ensures |r| == |icmp|
  {
    if f == V4 then icmp else SetU16(icmp, 2, Not(IcmpSum(f, icmp, source, destination)))
  }

  /** The packet written for a message received. */
  function Forwarded(f: Family, net: seq<Byte>, requestLength: nat, message: seq<Byte>, icmp: seq<Byte>,
                     source: Address, destination: Address): seq<Byte>
    requires |net| >= MinimumHeader(f) && (f == V6 ==> |icmp| >= 4)
  {
    ForwardHeader(f, net, requestLength, |message|, |icmp|) + Resealed(f, icmp, source, destination)
  }

  lemma ForwardHeaderIsValid(f: Family, p: seq<Byte>, received: nat, n: nat)
    requires WellFormed(f, p) && HeaderLength(f, p) + PayloadLength(f, p) == |p|
    requires f == V4 ==> received == n
    requires if f == V4 then HeaderLength(f, p) + n < 0x1_0000 else n < 0x1_0000
    ensures var h := ForwardHeader(f, Turned(f, p)[..HeaderLength(f, p)], PayloadLength(f, p), received, n);
            && HeaderLength(f, h) == HeaderLength(f, p) == |h|
            && (if f == V4 then U16At(h, 2) == |h| + n else U16At(h, 4) == n)
            && Source(f, h) == Destination(f, p) && Destination(f, h) == Source(f, p)
            && (f == V4 ==> SumsToOnes(WordSum(h)))
  {
    hide WordSum, SumsToOnes, SetU16, Turned, WithHeaderChecksum, Relengthed;
    TurnedIsValid(f, p);
    var q := Turned(f, p);
    var net := q[..HeaderLength(f, p)];
    assert Source(f, net) == Source(f, q) && Destination(f, net) == Destination(f, q);
    if n != PayloadLength(f, p) {
      if f == V4 {
        TurnedRelengthed(p, n);
      } else {
        var h := Relengthed(f, net, n);
        assert h == SetU16(net, 4, n) by { RelengthedV6(net, n); }
        assert Source(f, h) == Source(f, net) && Destination(f, h) == Destination(f, net);
      }
    }
  }

  lemma RelengthedV6(net: seq<Byte>, n: U16)
    requires |net| >= 40
    ensures Relengthed(V6, net, n) == SetU16(net, 4, n)
  {
    hide SetU16, Incremental, U16At;
  }

  lemma TurnedRelengthed(p: seq<Byte>, n: nat)
    requires WellFormed(V4, p) && HeaderLength(V4, p) + n < 0x1_0000
    ensures var net := Turned(V4, p)[..HeaderLength(V4, p)];
            var h := Relengthed(V4, net, n);
            && HeaderLength(V4, h) == |h| == |net| && U16At(h, 2) == |h| + n
            && Source(V4, h) == Source(V4, net) && Destination(V4, h) == Destination(V4, net)
            && SumsToOnes(WordSum(h))
  {
    hide WordSum, SumsToOnes, SetU16, SetBytes, WithHeaderChecksum, Relengthed;
    var b := SetBytes(SetBytes(p, SourceOffset(V4), Destination(V4, p)), DestinationOffset(V4), Source(V4, p));
    assert b[0] == p[0] && b[2] == p[2] && b[3] == p[3];
    RelengthedIsRecomputed(b, n);
    var net := WithHeaderChecksum(V4, b)[..HeaderLength(V4, b)];
    assert net == Turned(V4, p)[..HeaderLength(V4, p)];
    var y := SetU16(net, 2, Truncate(|net| + n));
    HeaderChecksumCompletes(V4, y);
    var h := WithHeaderChecksum(V4, y);
    assert h[..|net|] == h;
  }

  /** A reply whose size fits is well formed: it answers the request's endpoints, both
      length fields are exact although the saved header announced the request's length,
      and checksums hold. The IPv4 message is passed on untouched, so its own checksum is
      as good as it came; the IPv6 message, rebuilt or not, changes in its checksum only. */
  lemma ForwardIsValid(f: Family, p: seq<Byte>, message: seq<Byte>, icmp: seq<Byte>)
    requires WellFormed(f, p) && HeaderLength(f, p) + PayloadLength(f, p) == |p|
    requires if f == V4 then icmp == message else |icmp| >= 4
    requires if f == V4 then HeaderLength(f, p) + |icmp| < 0x1_0000 else |icmp| < 0x1_0000
    ensures var q := Forwarded(f, Turned(f, p)[..HeaderLength(f, p)], PayloadLength(f, p), message, icmp,
                               Destination(f, p), Source(f, p));
            && WellFormed(f, q)
            && HeaderLength(f, q) == HeaderLength(f, p)
            && PayloadLength(f, q) == |icmp| && |q| == HeaderLength(f, q) + |icmp|
            && Source(f, q) == Destination(f, p) && Destination(f, q) == Source(f, p)
            && HeaderChecksumValid(f, q)
            && (f == V4 ==> Transport(f, q) == icmp)
            && (f == V6 ==> IcmpValid(f, q) && Transport(f, q)[..2] == icmp[..2] && Transport(f, q)[4..] == icmp[4..])
  {
    hide WordSum, SumsToOnes, SetU16, Turned, ForwardHeader, IcmpSum, PseudoSum;
    ForwardHeaderIsValid(f, p, |message|, |icmp|);
    var h := ForwardHeader(f, Turned(f, p)[..HeaderLength(f, p)], PayloadLength(f, p), |message|, |icmp|);
    var body := Resealed(f, icmp, Destination(f, p), Source(f, p));
    var q := h + body;
    assert HeaderLength(f, q) == |h| && PayloadLength(f, q) == |icmp|;
    assert Source(f, q) == Source(f, h) && Destination(f, q) == Destination(f, h);
    assert q[..|h|] == h && Transport(f, q) == body;
    if f == V6 {
      IcmpSumCompletes(f, icmp, Destination(f, p), Source(f, p));
    }
  }

  /** The IPv4 unreachable branch announces the received message's length for a message of
      another length: the total length is right exactly when the two lengths agree, or the
      rebuilt message happens to be as long as the request. */
  lemma UnreachableLengthExactly(p: seq<Byte>, message: seq<Byte>, origin: seq<Byte>, scratch: seq<Byte>)
    requires WellFormed(V4, p) && HeaderLength(V4, p) + PayloadLength(V4, p) == |p|
    requires |message| >= 1 && message[0] == UnreachableType(V4) && |scratch| == ERROR_HEADER
    requires HeaderLength(V4, p) + |message| < 0x1_0000
    ensures var net := Turned(V4, p)[..HeaderLength(V4, p)];
            var icmp := Outgoing(V4, message, scratch, origin);
            var q := Forwarded(V4, net, PayloadLength(V4, p), message, icmp, Destination(V4, p), Source(V4, p));
            U16At(q, 2) == |q|
            <==> |message| == ERROR_HEADER + |origin| || PayloadLength(V4, p) == ERROR_HEADER + |origin|
  {
    hide WordSum, SumsToOnes, SetU16, Turned, Relengthed;
    TurnedRelengthed(p, |message|);
    TurnedIsValid(V4, p);
  }

  /** It goes back to where the request came from all the same, behind the request's header. */
  lemma UnreachableGoesBack(p: seq<Byte>, message: seq<Byte>, icmp: seq<Byte>)
    requires WellFormed(V4, p) && HeaderLength(V4, p) + |message| < 0x1_0000
    ensures var h := p[0] % 16 * 4;
            var q := Forwarded(V4, Turned(V4, p)[..h], PayloadLength(V4, p), message, icmp,
                               Destination(V4, p), Source(V4, p));
            q[h..] == icmp && q[12..16] == p[16..20] && q[16..20] == p[12..16]
  {
    hide WordSum, SumsToOnes, SetU16, Turned, Relengthed, HeaderChecksumValid;
    TurnedRelengthed(p, |message|);
    TurnedIsValid(V4, p);
    var h := HeaderLength(V4, p);
    var net := Turned(V4, p)[..h];
    var header := ForwardHeader(V4, net, PayloadLength(V4, p), |message|, |icmp|);
    assert Source(V4, net) == Source(V4, Turned(V4, p)) && Destination(V4, net) == Destination(V4, Turned(V4, p));
    assert (header + icmp)[12..16] == Source(V4, header) && (header + icmp)[16..20] == Destination(V4, header);
  }

  // ---- The request handler and its reply closure ----

  datatype Sent = Delivered | Refused | Unreachable

  /** The closure of an accepted ping: the scratch buffer holds the turned IP header and
      behind it the quoted start of the turned request. */
  class PingReplier {
    const f: Family
    const netLength: nat
    const requestLength: nat
    const headerCache: Buffer
    /** The packet of the request, whose addresses the IPv6 closure reads again. */
    const packet: array<Byte>
    const length: nat
    var device: seq<seq<Byte>>

    ghost predicate Valid()
      reads this, headerCache, headerCache.v, packet
    {
      && headerCache.Valid()
      && headerCache.start == 0
      && MinimumHeader(f) <= netLength <= headerCache.end
      && 2 * headerCache.end + ERROR_HEADER <= headerCache.v.Length
      && headerCache.v != packet
      && MinimumHeader(f) <= length <= packet.Length
      && HeaderLength(f, Net()) == netLength
    }

    ghost function Net(): (net: seq<Byte>)
      requires headerCache.Valid() && netLength <= headerCache.end
      reads headerCache, headerCache.v
    {
      headerCache.v[..netLength]
    }

    ghost function Origin(): seq<Byte>
      requires headerCache.Valid() && netLength <= headerCache.end
      reads headerCache, headerCache.v
    {
      headerCache.v[netLength..headerCache.end]
    }

    constructor (f: Family, packet: array<Byte>, n: nat)
      requires n <= packet.Length && WellFormed(f, packet[0..n])
      requires HeaderLength(f, packet[0..n]) + PayloadLength(f, packet[0..n]) == n
      ensures Valid() && this.f == f && this.packet == packet && length == n && device == []
      ensures requestLength == PayloadLength(f, packet[0..n])
      ensures Net() == packet[0..n][..HeaderLength(f, packet[0..n])]
      ensures var quoted := if requestLength > 8 then 8 else requestLength;
              Origin() == packet[0..n][..HeaderLength(f, packet[0..n]) + quoted]
      ensures fresh(headerCache) && fresh(headerCache.v)
    {
      var bytes := packet[0..n];
      var h := HeaderLength(f, bytes);
      assert h <= 60;
      var size := PayloadLength(f, bytes);
      var transportDataLength := if size > 8 then 8 else size;
      var cache := new Buffer.New(SIZE);
      var net := cache.ExtendCopy(bytes[..h]);
      var origin := cache.ExtendCopy(bytes[..h + transportDataLength]);
      this.f, this.packet, length, device := f, packet, n, [];
      netLength, requestLength, headerCache := h, size, cache;
    }

    /** One reply: what is written is the forwarded message; saved header, quoted request
        and buffer window are exactly as before. IPv6 also reseals the message in place. */
    method WriteBack(message: array<Byte>, deviceOk: bool) returns (sent: Sent)
      requires Valid() && message != headerCache.v && message != packet
      requires message.Length >= 1 && (f == V6 ==> message.Length >= 4)
      modifies this`device, headerCache, headerCache.v, message
      ensures Valid() && Net() == old(Net()) && Origin() == old(Origin())
      ensures headerCache.start == old(headerCache.start) && headerCache.end == old(headerCache.end)
      ensures var scratch := old(headerCache.v[headerCache.end..headerCache.end + ERROR_HEADER]);
              var icmp := Outgoing(f, old(message[..]), scratch, old(Origin()));
              var out := Forwarded(f, old(Net()), requestLength, old(message[..]), icmp,
                                   Source(f, packet[0..length]), Destination(f, packet[0..length]));
              device == old(device) + (if deviceOk then [out] else [])
      ensures sent ==
        if !deviceOk then Refused
        else if old(message[0]) == UnreachableType(f) then Unreachable
        else Delivered
    {
      hide Outgoing, Forwarded;
      var index := headerCache.Len();
      ghost var cached := headerCache.v[..index];
      assert cached[..netLength] == Net() && cached[netLength..] == Origin();
      var unreachable := message[0] == UnreachableType(f);
      var out := Compose(message);
      if deviceOk {
        device := device + [out];
      }
      headerCache.Clear();
      headerCache.Resize(0, index);
      assert Net() == cached[..netLength] && Origin() == cached[netLength..];
      sent := if !deviceOk then Refused else if unreachable then Unreachable else Delivered;
    }

    /** The packet for a message, put together in the scratch buffer behind its contents. */
    method Compose(message: array<Byte>) returns (out: seq<Byte>)
      requires Valid() && message != headerCache.v && message != packet
      requires message.Length >= 1 && (f == V6 ==> message.Length >= 4)
      modifies headerCache, headerCache.v, message
      ensures var scratch := old(headerCache.v[headerCache.end..headerCache.end + ERROR_HEADER]);
              var icmp := Outgoing(f, old(message[..]), scratch, old(Origin()));
              out == Forwarded(f, old(Net()), requestLength, old(message[..]), icmp,
                               Source(f, packet[0..length]), Destination(f, packet[0..length]))
      ensures headerCache.v[..old(headerCache.end)] == old(headerCache.v[..headerCache.end])
    {
      hide SetU16, SetBytes, Relengthed, IcmpSum, Quoted;
      ghost var received := message[..];
      var v := headerCache.v;
      var index := headerCache.end;
      ghost var cached, net, origin := v[..index], Net(), Origin();
      ghost var scratch := v[index..index + ERROR_HEADER];

      var memory, lo, hi := message, 0, message.Length;
      if message[0] == UnreachableType(f) {
        lo := Rebuild(message);
        memory, hi := v, headerCache.end;
      }
      var icmp := memory[lo..hi];
      assert icmp == Outgoing(f, received, scratch, origin);
      assert v[..netLength] == cached[..netLength] == net;

      var header := v[..netLength];
      if |icmp| != requestLength {
        header := Relength(if f == V4 then message.Length else |icmp|);
      }
      assert header == ForwardHeader(f, net, requestLength, |received|, |icmp|);
      assert v[..index] == cached && memory[lo..hi] == icmp;
      hide ForwardHeader, Outgoing;
      if f == V6 {
        var source, destination := Source(f, packet[0..length]), Destination(f, packet[0..length]);
        PutU16(memory, lo, hi, 2, Not(IcmpSum(f, icmp, source, destination)));
      }
      out := header + memory[lo..hi];
    }

    /** Extends the scratch buffer by the rebuilt unreachable message. */
    method Rebuild(message: array<Byte>) returns (lo: nat)
      requires Valid() && message != headerCache.v && message.Length >= 1
      modifies headerCache, headerCache.v
      ensures headerCache.Valid() && headerCache.start == old(headerCache.start)
      ensures lo == old(headerCache.end)
      ensures headerCache.end == lo + ERROR_HEADER + |old(Origin())|
      ensures headerCache.v[lo..headerCache.end]
           == Quoted(message[..], old(headerCache.v[headerCache.end..headerCache.end + ERROR_HEADER]), old(Origin()))
      ensures headerCache.v[..lo] == old(headerCache.v[..headerCache.end])
    {
      hide SetBytes;
      var v := headerCache.v;
      var origin := v[netLength..headerCache.end];
      ghost var scratch := v[headerCache.end..headerCache.end + ERROR_HEADER];
      lo := headerCache.Extend(ERROR_HEADER + |origin|);
      var hi := headerCache.end;
      ghost var before := v[..];
      PutBytes(v, lo, hi, 0, Head(message[..]));
      PutBytes(v, lo, hi, ERROR_HEADER, origin);
      ghost var q := v[lo..hi];
      QuotedInPlace(before[lo..hi], message[..], scratch, origin);
    }

    /** A copy of the saved header in the scratch buffer, with its length changed. */
    method Relength(n: nat) returns (header: seq<Byte>)
      requires headerCache.Valid() && MinimumHeader(f) <= netLength <= headerCache.end
      requires headerCache.end + netLength <= headerCache.v.Length
      modifies headerCache, headerCache.v
      ensures headerCache.Valid() && headerCache.start == old(headerCache.start)
      ensures header == Relengthed(f, old(headerCache.v[..netLength]), n)
      ensures headerCache.v[..old(headerCache.end)] == old(headerCache.v[..headerCache.end])
    {
      hide SetU16, Combine, Truncate;
      var v := headerCache.v;
      var net := v[..netLength];
      var lo := headerCache.ExtendCopy(net);
      var hi := headerCache.end;
      if f == V4 {
        var oldLength := U16At(net, 2);
        PutU16(v, lo, hi, 2, Truncate(netLength + n));
        var patched := v[lo..hi];
        PutU16(v, lo, hi, 10, Not(Combine(Not(U16At(patched, 10)), Combine(U16At(patched, 2), Not(oldLength)))));
      } else {
        PutU16(v, lo, hi, 4, Truncate(n));
      }
      header := v[lo..hi];
    }
  }

  lemma QuotedInPlace(region: seq<Byte>, message: seq<Byte>, scratch: seq<Byte>, origin: seq<Byte>)
    requires |region| == ERROR_HEADER + |origin| && |scratch| == ERROR_HEADER && region[..ERROR_HEADER] == scratch
    ensures SetBytes(SetBytes(region, 0, Head(message)), ERROR_HEADER, origin) == Quoted(message, scratch, origin)
  {
  }

  lemma HeaderChecksumV6(p: seq<Byte>)
    requires |p| >= 40
    ensures WithHeaderChecksum(V6, p) == p
  {
  }

  /** A ping answered at once: type and checksum are written into the turned packet. */
  method AnswerInPlace(f: Family, data: array<Byte>, n: nat)
    requires n <= data.Length && WellFormed(f, data[0..n]) && PayloadLength(f, data[0..n]) >= 4
    modifies data
    ensures data[0..n] == Answered(f, old(data[0..n]))
  {
    hide SetU16, IcmpSum;
    var p := data[0..n];
    var h := HeaderLength(f, p);
    var length := PayloadLength(f, p);
    data[h] := EchoReplyType(f);
    assert data[0..n] == p[h := EchoReplyType(f)];
    var icmp := data[0..n][h..h + length];
    PutU16(data, 0, n, h + 2, Not(IcmpSum(f, icmp, Source(f, p), Destination(f, p))));
  }

  /** The addresses of a request exchanged in place, the IPv4 checksum recomputed. */
  method TurnInPlace(f: Family, data: array<Byte>, n: nat)
    requires n <= data.Length && WellFormed(f, data[0..n])
    modifies data
    ensures data[0..n] == Turned(f, old(data[0..n]))
  {
    hide SetBytes, WithHeaderChecksum;
    var p := data[0..n];
    PutBytes(data, 0, n, SourceOffset(f), Destination(f, p));
    PutBytes(data, 0, n, DestinationOffset(f), Source(f, p));
    if f == V4 {
      assert data[0..n][0] == p[0];
      SetHeaderChecksum(data, 0, n);
    } else {
      HeaderChecksumV6(data[0..n]);
    }
  }
}
