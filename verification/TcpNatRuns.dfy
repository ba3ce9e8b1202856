/** Runs of the TCP forwarder: any sequence of packets, accepted connections and removals
    of session entries (deletion after close and cache expiry may strike any entry at any
    time), and what every run guarantees. */
module TcpNatRuns {
  import opened Bytes
  import opened IpPacket
  import opened TcpNat

  datatype Event =
    | Packet(f: Family, bytes: seq<Byte>)
    | Accept(remote: Address, remotePort: U16)
    | Remove(key: PeerKey)
  {
    predicate Admissible() {
      Packet? ==> TcpPacket(f, bytes)
    }

    /** This event is a packet of the flow that did not come from the listener. */
    predicate Sends(port: U16, flow: Flow) {
      && Packet? && TcpPacket(f, bytes)
      && FlowOf(f, bytes) == flow && flow.sourcePort != port
    }
  }

  datatype State = State(sessions: Sessions, device: seq<seq<Byte>>)

  predicate AllAdmissible(es: seq<Event>) {
    forall i :: 0 <= i < |es| ==> es[i].Admissible()
  }

  /** One event; the methods of `TcpForwarder` take the same step on its fields. */
  function Step(port: U16, s: State, e: Event): (s': State)
    requires Typed(s.sessions) && e.Admissible()
    ensures Typed(s'.sessions)
  {
    match e
    case Packet(f, p) =>
      var r := Process(f, port, s.sessions, p);
      State(r.sessions, s.device + (if r.sent then [r.packet] else []))
    case Accept(_, _) => s
    case Remove(key) => State(s.sessions - {key}, s.device)
  }

  function RunFrom(port: U16, s: State, es: seq<Event>): (s': State)
    requires Typed(s.sessions) && AllAdmissible(es)
    ensures Typed(s'.sessions)
  {
    if es == [] then s
    else Step(port, RunFrom(port, s, es[..|es| - 1]), es[|es| - 1])
  }

  function Run(port: U16, es: seq<Event>): (s: State)
    requires AllAdmissible(es)
    ensures Typed(s.sessions)
  {
    RunFrom(port, State(map[], []), es)
  }

  // ---- Provenance ----

  /** The flow was really sent: one of the events is a packet of it. */
  predicate WasSent(port: U16, es: seq<Event>, flow: Flow) {
    exists i :: 0 <= i < |es| && es[i].Sends(port, flow)
  }

  function FlowOfEntry(key: PeerKey, v: PeerValue): Flow {
    Flow(v.sourceAddress, key.sourcePort, key.destinationAddress, v.destinationPort)
  }

  lemma SentEarlier(port: U16, es: seq<Event>, flow: Flow)
    requires |es| > 0 && WasSent(port, es[..|es| - 1], flow)
    ensures WasSent(port, es, flow)
  {
    var i :| 0 <= i < |es| - 1 && es[..|es| - 1][i].Sends(port, flow);
    assert es[i].Sends(port, flow);
  }

  lemma PacketWasSent(port: U16, es: seq<Event>)
    requires |es| > 0 && es[|es| - 1].Packet? && es[|es| - 1].Admissible()
    ensures var e := es[|es| - 1];
            FlowOf(e.f, e.bytes).sourcePort != port ==> WasSent(port, es, FlowOf(e.f, e.bytes))
  {
    var e := es[|es| - 1];
    if FlowOf(e.f, e.bytes).sourcePort != port {
      assert e.Sends(port, FlowOf(e.f, e.bytes));
    }
  }

  /** Every session entry of every reachable state stems from a packet that was sent. */
  lemma {:induction false} EntriesWereSent(port: U16, es: seq<Event>, key: PeerKey)
    requires AllAdmissible(es)
    ensures key in Run(port, es).sessions ==> WasSent(port, es, FlowOfEntry(key, Run(port, es).sessions[key]))
  {
    hide FlowOf, Rewritten, HeaderLength, PayloadLength, DataOffset;
    if es != [] && key in Run(port, es).sessions {
      var pre, e := es[..|es| - 1], es[|es| - 1];
      var s := Run(port, pre);
      if key in s.sessions {
        EntriesWereSent(port, pre, key);
        SentEarlier(port, es, FlowOfEntry(key, s.sessions[key]));
      } else {
        var flow := FlowOf(e.f, e.bytes);
        assert FlowOfEntry(key, ValueOf(flow)) == flow;
        PacketWasSent(port, es);
      }
    }
  }

  /** The 4-tuple handed over for an accepted connection is that of a packet really sent. */
  lemma AcceptedFlowWasSent(port: U16, es: seq<Event>, remote: Address, remotePort: U16)
    requires AllAdmissible(es)
    ensures var r := Recovered(Run(port, es).sessions, remote, remotePort);
            r.Some? ==> WasSent(port, es, r.value)
  {
    var key := PeerKey(Normalized(remote), remotePort);
    if key in Run(port, es).sessions {
      EntriesWereSent(port, es, key);
    }
  }

  /** A valid packet that carries the flow to the listener, or the flow's reverse. */
  predicate Carries(port: U16, f: Family, flow: Flow, packet: seq<Byte>) {
    && TcpPacket(f, packet)
    && HeaderChecksumValid(f, packet) && SegmentChecksumValid(f, TCP, packet)
    && (|| FlowOf(f, packet) == flow.Reverse()
        || FlowOf(f, packet) == Flow(flow.destination, flow.sourcePort, Client(f), port))
  }

  /** What the device may carry after these events. */
  ghost predicate Explained(port: U16, es: seq<Event>, packet: seq<Byte>) {
    exists f, flow :: WasSent(port, es, flow) && Carries(port, f, flow, packet)
  }

  lemma ExplainedEarlier(port: U16, es: seq<Event>, packet: seq<Byte>)
    requires |es| > 0 && Explained(port, es[..|es| - 1], packet)
    ensures Explained(port, es, packet)
  {
    hide Carries, WasSent;
    var f, flow :| WasSent(port, es[..|es| - 1], flow) && Carries(port, f, flow, packet);
    SentEarlier(port, es, flow);
  }

  /** Every packet ever written has valid checksums and carries either a sent flow towards
      the listener or the reverse of a sent flow. */
  lemma {:induction false} DeviceIsExplained(port: U16, es: seq<Event>, i: nat)
    requires AllAdmissible(es) && i < |Run(port, es).device|
    ensures Explained(port, es, Run(port, es).device[i])
  {
    hide FlowOf, TcpPacket, Rewritten, HeaderChecksumValid, SegmentChecksumValid, Explained;
    var pre, e := es[..|es| - 1], es[|es| - 1];
    var s := Run(port, pre);
    if i < |s.device| {
      DeviceIsExplained(port, pre, i);
      ExplainedEarlier(port, es, s.device[i]);
    } else {
      WrittenIsExplained(port, es);
    }
  }

  lemma WrittenIsExplained(port: U16, es: seq<Event>)
    requires AllAdmissible(es) && |es| > 0 && es[|es| - 1].Packet?
    ensures var e := es[|es| - 1];
            var r := Process(e.f, port, Run(port, es[..|es| - 1]).sessions, e.bytes);
            r.sent ==> Explained(port, es, r.packet)
  {
    hide FlowOf, Rewritten, HeaderLength, PayloadLength, DataOffset, Run, RunFrom;
    hide HeaderChecksumValid, SegmentChecksumValid, WasSent;
    var pre, e := es[..|es| - 1], es[|es| - 1];
    var sessions := Run(port, pre).sessions;
    var flow := FlowOf(e.f, e.bytes);
    var key := PeerKey(flow.destination, flow.destinationPort);
    var r := Process(e.f, port, sessions, e.bytes);
    if flow.sourcePort != port {
      RewrittenIsValid(e.f, e.bytes, Flow(flow.destination, flow.sourcePort, Client(e.f), port));
      PacketWasSent(port, es);
      assert Carries(port, e.f, flow, r.packet);
    } else if key in sessions {
      var sent := FlowOfEntry(key, sessions[key]);
      EntriesWereSent(port, pre, key);
      SentEarlier(port, es, sent);
      RewrittenIsValid(e.f, e.bytes, sent.Reverse());
      assert Carries(port, e.f, sent, r.packet);
    }
  }

  // ---- Transparency ----

  /** The key's entry, if any, speaks of the same source and destination port. */
  predicate AgreesWith(sessions: Sessions, flow: Flow) {
    KeyOf(flow) in sessions ==> sessions[KeyOf(flow)] == ValueOf(flow)
  }

  /** The connection the kernel accepts for an outgoing packet is handed over with the
      packet's own flow exactly when the key was free or already held this flow, and the
      destination is not an IPv4 address in IPv6 clothes. */
  lemma RecoveredExactly(f: Family, port: U16, sessions: Sessions, p: seq<Byte>)
    requires TcpPacket(f, p) && Typed(sessions) && FlowOf(f, p).sourcePort != port
    ensures var flow := FlowOf(f, p);
            var after := Process(f, port, sessions, p).sessions;
            (Recovered(after, flow.destination, flow.sourcePort) == Some(flow))
            <==> (AgreesWith(sessions, flow) && !IsMapped(flow.destination))
  {
    hide FlowOf, Rewritten, HeaderLength, PayloadLength, DataOffset;
    var flow := FlowOf(f, p);
    if IsMapped(flow.destination) {
      assert |Normalized(flow.destination)| == 4;
    }
  }

  /** A packet that does not come from the listener and has this key. */
  predicate SendsKey(port: U16, e: Event, key: PeerKey) {
    && e.Packet? && TcpPacket(e.f, e.bytes)
    && KeyOf(FlowOf(e.f, e.bytes)) == key && FlowOf(e.f, e.bytes).sourcePort != port
  }

  lemma SessionStep(port: U16, s: State, e: Event, key: PeerKey)
    requires Typed(s.sessions) && e.Admissible()
    ensures var s' := Step(port, s, e);
      && (key in s'.sessions <==> e != Remove(key) && (key in s.sessions || SendsKey(port, e, key)))
      && (key in s'.sessions && key in s.sessions ==> s'.sessions[key] == s.sessions[key])
      && (key in s'.sessions && key !in s.sessions ==> s'.sessions[key] == ValueOf(FlowOf(e.f, e.bytes)))
  {
    hide FlowOf, TcpPacket, Rewritten;
  }

  /** An entry stays as it is as long as it is not removed. */
  lemma {:induction false} EntryPersists(port: U16, s: State, es: seq<Event>, key: PeerKey)
    requires Typed(s.sessions) && AllAdmissible(es) && key in s.sessions
    requires Remove(key) !in es
    ensures key in RunFrom(port, s, es).sessions
    ensures RunFrom(port, s, es).sessions[key] == s.sessions[key]
  {
    hide Step, Event.Admissible, SendsKey;
    if es != [] {
      var pre := es[..|es| - 1];
      EntryPersists(port, s, pre, key);
      SessionStep(port, RunFrom(port, s, pre), es[|es| - 1], key);
    }
  }

  /** The round trip. A packet of `flow` is rewritten; any other events follow, without a
      removal of its entry; then the listener answers the rewritten packet: the answer's
      endpoints are its endpoints exchanged. The answer reaches the device with exactly the
      reverse of `flow`, valid checksums, and every other byte as the listener sent it. */
  lemma RoundTrip(port: U16, s: State, f: Family, p: seq<Byte>, es: seq<Event>, reply: seq<Byte>)
    requires Typed(s.sessions) && AllAdmissible(es)
    requires TcpPacket(f, p) && TcpPacket(f, reply)
    requires FlowOf(f, p).sourcePort != port && AgreesWith(s.sessions, FlowOf(f, p))
    requires Remove(KeyOf(FlowOf(f, p))) !in es
    requires FlowOf(f, reply) == Flow(Client(f), port, FlowOf(f, p).destination, FlowOf(f, p).sourcePort)
    ensures var out := Process(f, port, s.sessions, p).packet;
            TcpPacket(f, out) && FlowOf(f, reply) == FlowOf(f, out).Reverse()
    ensures var r := Process(f, port, RunFrom(port, Step(port, s, Packet(f, p)), es).sessions, reply);
            && r.sent
            && TcpPacket(f, r.packet)
            && FlowOf(f, r.packet) == FlowOf(f, p).Reverse()
            && Agree(f, reply, r.packet)
            && HeaderChecksumValid(f, r.packet) && SegmentChecksumValid(f, TCP, r.packet)
  {
    hide FlowOf, Rewritten, HeaderLength, PayloadLength, DataOffset, HeaderChecksumValid, SegmentChecksumValid, Agree;
    var flow := FlowOf(f, p);
    var key := KeyOf(flow);
    RewrittenIsValid(f, p, Flow(flow.destination, flow.sourcePort, Client(f), port));
    var s1 := Step(port, s, Packet(f, p));
    assert s1.sessions[key] == ValueOf(flow);
    EntryPersists(port, s1, es, key);
    RewrittenIsValid(f, reply, flow.Reverse());
  }

  // ---- The key omits source address and destination port ----

  /** Two flows to one destination from one source port share a key: until the entry is
      removed, the second flow's connection is handed over as the first flow's. */
  lemma SecondFlowIsTakenForFirst(port: U16, f: Family, p: seq<Byte>, q: seq<Byte>)
    requires TcpPacket(f, p) && TcpPacket(f, q)
    requires FlowOf(f, p).sourcePort != port && FlowOf(f, q) != FlowOf(f, p)
    requires KeyOf(FlowOf(f, q)) == KeyOf(FlowOf(f, p)) && !IsMapped(FlowOf(f, p).destination)
    ensures var es := [Packet(f, p), Packet(f, q)];
            var second := FlowOf(f, q);
            Recovered(Run(port, es).sessions, second.destination, second.sourcePort)
            == Some(FlowOf(f, p)) != Some(second)
  {
    hide FlowOf, Rewritten, HeaderLength, PayloadLength, DataOffset;
    var e, e' := Packet(f, p), Packet(f, q);
    var s0 := State(map[], []);
    assert [e, e'][..1] == [e] && [e][..0] == [];
    assert RunFrom(port, s0, [e]) == Step(port, s0, e);
    assert Run(port, [e, e']) == Step(port, Step(port, s0, e), e');
  }

  /** A 38-byte IPv4 packet of the flow. */
  function Sample(flow: Flow): (p: seq<Byte>)
    requires |flow.source| == |flow.destination| == 4
    ensures TcpPacket(V4, p) && FlowOf(V4, p) == flow
  {
    var blank: seq<Byte> := seq(38, i => if i == 0 then 0x45 else if i == 3 then 38 else 0);
    assert Transport(V4, blank)[12] == blank[32] == 0;
    Readdressed(V4, blank, flow)
  }

  /** So the connection of any two such flows with one key and different destination ports
      is confused, whatever the addresses and ports. */
  lemma PortIsConfused(port: U16, source: Address, sp: U16, destination: Address, dp: U16, dp': U16)
    requires |source| == |destination| == 4 && sp != port && dp != dp'
    ensures var first, second := Flow(source, sp, destination, dp), Flow(source, sp, destination, dp');
            var es := [Packet(V4, Sample(first)), Packet(V4, Sample(second))];
            && AllAdmissible(es)
            && Recovered(Run(port, es).sessions, destination, sp) == Some(first)
  {
    hide Sample, FlowOf, TcpPacket, Rewritten, Run, Recovered;
    var p, q := Sample(Flow(source, sp, destination, dp)), Sample(Flow(source, sp, destination, dp'));
    SecondFlowIsTakenForFirst(port, V4, p, q);
  }

  // ---- The table as history ----

  /** One that was sent since the key's last removal. */
  predicate Live(port: U16, es: seq<Event>, j: nat, key: PeerKey) {
    && j < |es| && SendsKey(port, es[j], key)
    && forall k :: j < k < |es| ==> es[k] != Remove(key)
  }

  /** The first of these. */
  predicate FirstLive(port: U16, es: seq<Event>, j: nat, key: PeerKey) {
    Live(port, es, j, key) && forall i :: 0 <= i < j ==> !Live(port, es, i, key)
  }

  lemma LiveStep(port: U16, es: seq<Event>, j: nat, key: PeerKey)
    requires es != []
    ensures Live(port, es, j, key) <==>
      && es[|es| - 1] != Remove(key)
      && (Live(port, es[..|es| - 1], j, key) || (j == |es| - 1 && SendsKey(port, es[j], key)))
  {
    hide SendsKey;
    var pre, n := es[..|es| - 1], |es| - 1;
    assert forall i :: 0 <= i < n ==> pre[i] == es[i];
    if j == n && SendsKey(port, es[j], key) {
      SendsIsNoRemoval(port, es[j], key);
    }
  }

  lemma SendsIsNoRemoval(port: U16, e: Event, key: PeerKey)
    requires SendsKey(port, e, key)
    ensures e.Packet?
  {
  }

  lemma LiveSends(port: U16, es: seq<Event>, j: nat, key: PeerKey)
    requires Live(port, es, j, key)
    ensures j < |es| && es[j].Packet? && es[j].Admissible() && SendsKey(port, es[j], key)
  {
  }

  lemma RunEnds(port: U16, es: seq<Event>)
    requires AllAdmissible(es) && es != []
    ensures Run(port, es) == Step(port, Run(port, es[..|es| - 1]), es[|es| - 1])
  {
    hide Step;
  }

  lemma NothingLive(port: U16, key: PeerKey)
    ensures key !in Run(port, []).sessions && forall j: nat :: !Live(port, [], j, key)
  {
  }

  /** In every run a key has an entry exactly if a packet of it was sent since its last removal. */
  lemma {:induction false} EntryExactly(port: U16, es: seq<Event>, key: PeerKey)
    requires AllAdmissible(es)
    ensures key in Run(port, es).sessions <==> exists j: nat :: Live(port, es, j, key)
  {
    hide Run, Step, Live, SendsKey;
    if es == [] {
      NothingLive(port, key);
    } else {
      var pre, e := es[..|es| - 1], es[|es| - 1];
      EntryExactly(port, pre, key);
      RunEnds(port, es);
      SessionStep(port, Run(port, pre), e, key);
      SomeLive(port, es, key);
    }
  }

  lemma SomeLive(port: U16, es: seq<Event>, key: PeerKey)
    requires es != []
    ensures var pre, e := es[..|es| - 1], es[|es| - 1];
      (exists j: nat :: Live(port, es, j, key)) <==>
        e != Remove(key) && ((exists j: nat :: Live(port, pre, j, key)) || SendsKey(port, e, key))
  {
    hide Live, SendsKey;
    var pre, n := es[..|es| - 1], |es| - 1;
    if j: nat :| Live(port, es, j, key) {
      LiveStep(port, es, j, key);
    }
    if es[n] != Remove(key) {
      LiveStep(port, es, n, key);
      if j: nat :| Live(port, pre, j, key) {
        LiveStep(port, es, j, key);
      }
    }
  }

  /** The first is still to come or was the first before. */
  lemma FirstStep(port: U16, es: seq<Event>, j: nat, key: PeerKey)
    requires FirstLive(port, es, j, key)
    ensures var pre, n := es[..|es| - 1], |es| - 1;
      && es[n] != Remove(key)
      && (j < n ==> FirstLive(port, pre, j, key))
      && (j == n ==> forall i: nat :: !Live(port, pre, i, key))
  {
    LiveSends(port, es, j, key);
    hide Live, SendsKey;
    var pre := es[..|es| - 1];
    LiveStep(port, es, j, key);
    forall i: nat
      ensures Live(port, pre, i, key) ==> i < |pre| && Live(port, es, i, key)
    {
      if Live(port, pre, i, key) {
        LiveSends(port, pre, i, key);
        LiveStep(port, es, i, key);
      }
    }
  }

  /** And its value is that of the first such packet. */
  lemma {:induction false} EntryIsFirst(port: U16, es: seq<Event>, j: nat, key: PeerKey)
    requires AllAdmissible(es) && FirstLive(port, es, j, key)
    ensures j < |es| && key in Run(port, es).sessions
    ensures es[j].Packet? && es[j].Admissible() && Run(port, es).sessions[key] == ValueOf(FlowOf(es[j].f, es[j].bytes))
  {
    LiveSends(port, es, j, key);
    FirstStep(port, es, j, key);
    hide Run, Step, SendsKey, FlowOf, Live, FirstLive, TcpPacket;
    var pre, n := es[..|es| - 1], |es| - 1;
    RunEnds(port, es);
    SessionStep(port, Run(port, pre), es[n], key);
    EntryExactly(port, pre, key);
    if j < n {
      EntryIsFirst(port, pre, j, key);
    }
  }

  lemma {:induction false} FirstExists(port: U16, es: seq<Event>, j: nat, key: PeerKey)
    requires Live(port, es, j, key)
    ensures exists i: nat :: FirstLive(port, es, i, key)
  {
    if i: nat :| i < j && Live(port, es, i, key) {
      FirstExists(port, es, i, key);
    } else {
      assert FirstLive(port, es, j, key);
    }
  }

  /** Transparency over whole runs: the connection accepted for a packet is handed over with the
      packet's flow exactly if the first packet of its key since the key's last removal, if there
      was one, was of the same flow, and the destination is not v4-mapped. */
  lemma RecoveredInRun(port: U16, es: seq<Event>, f: Family, p: seq<Byte>)
    requires AllAdmissible(es) && TcpPacket(f, p) && FlowOf(f, p).sourcePort != port
    ensures var flow := FlowOf(f, p);
      AllAdmissible(es + [Packet(f, p)])
      && (Recovered(Run(port, es + [Packet(f, p)]).sessions, flow.destination, flow.sourcePort) == Some(flow)
          <==> !IsMapped(flow.destination)
               && forall j: nat :: FirstLive(port, es, j, KeyOf(flow)) ==> FlowOf(es[j].f, es[j].bytes) == flow)
  {
    var flow, sessions, all := FlowOf(f, p), Run(port, es).sessions, es + [Packet(f, p)];
    assert all[..|es|] == es;
    assert Run(port, all).sessions == Process(f, port, sessions, p).sessions;
    RecoveredExactly(f, port, sessions, p);
    EntryExactly(port, es, KeyOf(flow));
    hide Run, Process, Recovered, FlowOf, Live;
    if j: nat :| FirstLive(port, es, j, KeyOf(flow)) {
      EntryIsFirst(port, es, j, KeyOf(flow));
    }
    if KeyOf(flow) in sessions {
      var j: nat :| Live(port, es, j, KeyOf(flow));
      FirstExists(port, es, j, KeyOf(flow));
      var i: nat :| FirstLive(port, es, i, KeyOf(flow));
      EntryIsFirst(port, es, i, KeyOf(flow));
      OnlyOneFirst(port, es, i, flow);
    }
  }

  /** The same for an IPv4 packet whose connection a dual-stack listener accepts, with the peer in
      its v4-mapped form. */
  lemma MappedRecoveredInRun(port: U16, es: seq<Event>, p: seq<Byte>)
    requires AllAdmissible(es) && TcpPacket(V4, p) && FlowOf(V4, p).sourcePort != port
    ensures var flow := FlowOf(V4, p);
      AllAdmissible(es + [Packet(V4, p)])
      && (Recovered(Run(port, es + [Packet(V4, p)]).sessions, Mapped(flow.destination), flow.sourcePort) == Some(flow)
          <==> forall j: nat :: FirstLive(port, es, j, KeyOf(flow)) ==> FlowOf(es[j].f, es[j].bytes) == flow)
  {
    var flow := FlowOf(V4, p);
    assert |flow.destination| == 4;
    hide Run, Recovered, FlowOf, FirstLive, IsMapped;
    RecoveredInRun(port, es, V4, p);
    var sessions := Run(port, es + [Packet(V4, p)]).sessions;
    NotMapped(flow.destination);
    PeerIsLookedUp(sessions, Mapped(flow.destination), flow.sourcePort);
    PeerIsLookedUp(sessions, flow.destination, flow.sourcePort);
  }

  lemma NotMapped(a: Address)
    requires |a| == 4
    ensures !IsMapped(a) && forall b: Address :: |b| == 4 ==> a != Mapped(b)
  {
  }

  lemma OnlyOneFirst(port: U16, es: seq<Event>, i: nat, flow: Flow)
    requires FirstLive(port, es, i, KeyOf(flow))
    ensures forall j: nat :: FirstLive(port, es, j, KeyOf(flow)) ==> j == i
    ensures FlowOf(es[i].f, es[i].bytes) == flow <==> ValueOf(FlowOf(es[i].f, es[i].bytes)) == ValueOf(flow)
  {
  }
}
