/** The statistics objects of all apps and the calls on them (stats.go). Each method here is one
    uninterrupted call; interleavings are in Traffic and SC. */
module AppTraffics {
  import opened Bytes
  import opened Traffic
  import SC = SessionCounters

  type Uid = x: nat | x < 0x1_0000

  /** What the listener is told about one app. */
  datatype Row = Row(
    uid: Uid, tcpConn: int, udpConn: int, tcpConnTotal: int, udpConnTotal: int,
    uplink: int, downlink: int, uplinkTotal: int, downlinkTotal: int, deactivateAt: int)

  class Stats {
    var tcpConn: int
    var udpConn: int
    var tcpConnTotal: nat
    var udpConnTotal: nat
    var uplink: U64
    var downlink: U64
    var uplinkTotal: U64
    var downlinkTotal: U64
    var deactivateAt: int
    var connections: seq<nat>
    /** The sessions that have got hold of this object. */
    var sessions: seq<SC.Session>
    /** The calls that read the statistics and have come to this object. */
    var readers: seq<Reader>

    constructor ()
      ensures Counters() == SC.Run([]) && Flowing() == Run([])
    {
      tcpConn, udpConn, tcpConnTotal, udpConnTotal := 0, 0, 0, 0;
      uplink, downlink, uplinkTotal, downlinkTotal := 0, 0, 0, 0;
      deactivateAt, connections, sessions, readers := 0, [], [], [];
    }

    ghost function Flowing(): State
      reads this
    {
      State(Pair(uplink, uplinkTotal), Pair(downlink, downlinkTotal), readers)
    }

    /** One atomic operation on the traffic counters: n bytes of a session, or a reader's step. */
    method Carry(e: Event)
      modifies this`uplink, this`downlink, this`uplinkTotal, this`downlinkTotal, this`readers
      ensures Flowing() == Step(old(Flowing()), e)
      ensures e.TcpRead? || (e.UdpWriteTo? && e.ok) ==>
        uplink == (old(uplink) + e.n) % 0x1_0000_0000_0000_0000 && unchanged(`downlink)
      ensures e.TcpWrite? || (e.UdpReadFrom? && e.ok) ==>
        downlink == (old(downlink) + e.n) % 0x1_0000_0000_0000_0000 && unchanged(`uplink)
      ensures (e.UdpReadFrom? || e.UdpWriteTo?) && !e.ok ==> unchanged(`uplink) && unchanged(`downlink)
      ensures !e.Advance? ==> unchanged(`uplinkTotal) && unchanged(`downlinkTotal)
    {
      match e {
        case TcpRead(n) =>
          uplink := AddTo(uplink, n);
        case TcpWrite(n) =>
          downlink := AddTo(downlink, n);
        case UdpReadFrom(n, ok) =>
          if ok {
            downlink := AddTo(downlink, n);
          }
        case UdpWriteTo(n, ok) =>
          if ok {
            uplink := AddTo(uplink, n);
          }
        case StartRead =>
          readers := readers + [Ready];
        case Advance(id) =>
          var s := Step(State(Pair(uplink, uplinkTotal), Pair(downlink, downlinkTotal), readers), e);
          uplink, uplinkTotal, downlink, downlinkTotal := s.up.pending, s.up.total, s.down.pending, s.down.total;
          readers := s.readers;
      }
    }

    /** What sessions and other readers do before a reader's next step. */
    method Pass(others: seq<Event>, id: nat)
      requires id < |readers| && NotBy(others, id)
      modifies this`uplink, this`downlink, this`uplinkTotal, this`downlinkTotal, this`readers
      ensures Flowing() == RunFrom(old(Flowing()), others)
      ensures id < |readers| && readers[id] == old(readers[id])
    {
      hide Step, RunFrom;
      RunNothing(Flowing());
      var i := 0;
      while i < |others|
        invariant i <= |others|
        invariant Flowing() == RunFrom(old(Flowing()), others[..i])
      {
        RunThen(old(Flowing()), others[..i], others[i]);
        assert others[..i + 1] == others[..i] + [others[i]];
        Carry(others[i]);
        i := i + 1;
      }
      assert others[..|others|] == others;
      OthersKeep(old(Flowing()), others, id);
    }

    /** One app's row. Its counters of connections are read first; then come the four atomic
        operations on the traffic, each after what others did: they are the steps of a new reader,
        and the row shows what that reader got. */
    method Export(uid: Uid, others: seq<seq<Event>>) returns (row: Row)
      requires |others| == 5 && forall k :: 0 <= k < 5 ==> NotBy(others[k], |readers|)
      modifies this`uplink, this`downlink, this`uplinkTotal, this`downlinkTotal, this`readers
      ensures Flowing() == RunFrom(old(Flowing()), [StartRead] + Weave(others, Advance(old(|readers|))))
      ensures old(|readers|) < |readers| && readers[old(|readers|)].Reported?
      ensures var r := readers[old(|readers|)];
        && row.uid == uid
        && row.uplink == ToInt64(r.up) && row.uplinkTotal == ToInt64(r.upTotal)
        && row.downlink == ToInt64(r.down) && row.downlinkTotal == ToInt64(r.downTotal)
        && row.tcpConn == tcpConn && row.udpConn == udpConn
        && row.tcpConnTotal == ToInt32(tcpConnTotal) && row.udpConnTotal == ToInt32(udpConnTotal)
        && row.deactivateAt == ToInt32(deactivateAt)
      ensures (forall k :: 0 <= k < 5 ==> others[k] == []) ==>
        && row.uplink == ToInt64(old(uplink)) && row.downlink == ToInt64(old(downlink))
        && row.uplinkTotal == ToInt64(uplinkTotal) && row.downlinkTotal == ToInt64(downlinkTotal)
        && uplink == downlink == 0
        && uplinkTotal == (old(uplinkTotal) + old(uplink)) % 0x1_0000_0000_0000_0000
        && downlinkTotal == (old(downlinkTotal) + old(downlink)) % 0x1_0000_0000_0000_0000
    {
      hide NotBy, Weave, RunFrom, Step;
      ghost var s := Flowing();
      var id := |readers|;
      row := Row(uid, tcpConn, udpConn, ToInt32(tcpConnTotal), ToInt32(udpConnTotal),
                 0, 0, 0, 0, ToInt32(deactivateAt));
      readers := readers + [Ready];
      ReadBegins(s, others, id);
      var up, upTotal := ReadUp(others, id, s);
      var down, downTotal := ReadDown(others, id, s, up, upTotal);
      row := row.(uplink := ToInt64(up), uplinkTotal := ToInt64(upTotal));
      row := row.(downlink := ToInt64(down), downlinkTotal := ToInt64(downTotal));
      assert others[..5] == others;
      if forall k :: 0 <= k < 5 ==> others[k] == [] {
        QuietRead(s, others);
      }
    }

    /** What others do before a reader's step k. */
    method ReadTurn(others: seq<seq<Event>>, id: nat, k: nat, ghost s: State)
      requires k < |others| && id < |readers| && NotBy(others[k], id)
      requires Flowing() == RunFrom(s, [StartRead] + Weave(others[..k], Advance(id)))
      modifies this`uplink, this`downlink, this`uplinkTotal, this`downlinkTotal, this`readers
      ensures id < |readers| && readers[id] == old(readers[id])
      ensures Step(Flowing(), Advance(id)) == RunFrom(s, [StartRead] + Weave(others[..k + 1], Advance(id)))
    {
      hide NotBy, Weave, RunFrom, Step;
      Pass(others[k], id);
      ReadNext(s, others, k, id);
    }

    /** The uplink swapped out, then added to its total. */
    method ReadUp(others: seq<seq<Event>>, id: nat, ghost s: State) returns (up: U64, upTotal: U64)
      requires |others| == 5 && forall k :: 0 <= k < 5 ==> NotBy(others[k], id)
      requires id < |readers| && readers[id] == Ready
      requires Flowing() == RunFrom(s, [StartRead] + Weave(others[..0], Advance(id)))
      modifies this`uplink, this`downlink, this`uplinkTotal, this`downlinkTotal, this`readers
      ensures id < |readers| && readers[id] == UpAdded(up, upTotal)
      ensures Flowing() == RunFrom(s, [StartRead] + Weave(others[..2], Advance(id)))
    {
      hide NotBy, Weave, RunFrom, AddTo;
      ReadTurn(others, id, 0, s);
      up := uplink;
      uplink, readers := 0, readers[id := UpSwapped(up)];

      ReadTurn(others, id, 1, s);
      uplinkTotal := AddTo(uplinkTotal, up);
      upTotal := uplinkTotal;
      readers := readers[id := UpAdded(up, upTotal)];
    }

    /** The same with the downlink; then the row is complete. */
    method ReadDown(others: seq<seq<Event>>, id: nat, ghost s: State, up: U64, upTotal: U64)
      returns (down: U64, downTotal: U64)
      requires |others| == 5 && forall k :: 0 <= k < 5 ==> NotBy(others[k], id)
      requires id < |readers| && readers[id] == UpAdded(up, upTotal)
      requires Flowing() == RunFrom(s, [StartRead] + Weave(others[..2], Advance(id)))
      modifies this`uplink, this`downlink, this`uplinkTotal, this`downlinkTotal, this`readers
      ensures id < |readers| && readers[id] == Reported(up, upTotal, down, downTotal)
      ensures Flowing() == RunFrom(s, [StartRead] + Weave(others[..5], Advance(id)))
    {
      hide NotBy, Weave, RunFrom, AddTo;
      ReadTurn(others, id, 2, s);
      down := downlink;
      downlink, readers := 0, readers[id := DownSwapped(up, upTotal, down)];

      ReadTurn(others, id, 3, s);
      downlinkTotal := AddTo(downlinkTotal, down);
      downTotal := downlinkTotal;
      readers := readers[id := DownAdded(up, upTotal, down, downTotal)];

      ReadTurn(others, id, 4, s);
      readers := readers[id := Reported(up, upTotal, down, downTotal)];
    }

    ghost function Counters(): SC.State
      reads this
    {
      SC.State(tcpConn, udpConn, tcpConnTotal, udpConnTotal, deactivateAt, connections, sessions)
    }

    /** One atomic operation of another session. */
    method Do(e: SC.Event)
      modifies this
      ensures Counters() == SC.Step(old(Counters()), e)
      ensures Flowing() == old(Flowing())
    {
      var s := SC.Step(SC.State(tcpConn, udpConn, tcpConnTotal, udpConnTotal, deactivateAt, connections, sessions), e);
      tcpConn, udpConn, tcpConnTotal, udpConnTotal := s.tcpConn, s.udpConn, s.tcpTotal, s.udpTotal;
      deactivateAt, connections, sessions := s.deactivateAt, s.connections, s.sessions;
    }

    /** What other sessions do between two operations of one session. */
    method Interfere(others: seq<SC.Event>)
      modifies this
      ensures Counters() == SC.RunFrom(old(Counters()), others)
    {
      var i := 0;
      while i < |others|
        invariant i <= |others|
        invariant Counters() == SC.RunFrom(old(Counters()), others[..i])
      {
        assert others[..i + 1][..i] == others[..i];
        Do(others[i]);
        i := i + 1;
      }
      assert others[..|others|] == others;
    }

    /** The same, seen from a session that is part of a run so far. */
    method Meanwhile(others: seq<SC.Event>, id: nat, ghost es: seq<SC.Event>)
      requires id < |sessions| && SC.NotBy(others, id)
      requires Counters() == SC.Run(es)
      modifies this
      ensures Counters() == SC.Run(es + others)
      ensures id < |sessions| && sessions[id] == old(sessions[id])
    {
      SC.OthersKeep(Counters(), others, id);
      SC.RunAppend(SC.Initial, es, others);
      Interfere(others);
    }

    /** Notes how far a session has come. */
    method Reach(id: nat, phase: SC.Phase)
      requires id < |sessions|
      modifies this`sessions
      ensures sessions == old(sessions)[id := old(sessions)[id].(phase := phase)]
    {
      sessions := sessions[id := sessions[id].(phase := phase)];
    }

    /** One session's use of the object, from its counting in to its removal from the list: the
        run goes on with exactly its eight steps, each after what others did before it. When
        everyone else is quiet then, the stamp is set. */
    method Serve(kind: SC.Kind, now: int, others: seq<seq<SC.Event>>, ghost history: seq<SC.Event>) returns (id: nat)
      requires |others| == 8 && forall k :: 0 <= k < 8 ==> SC.NotBy(others[k], |sessions|)
      requires Counters() == SC.Run(history)
      modifies this
      ensures id == old(|sessions|) < |sessions| && sessions[id] == SC.Session(kind, SC.Done)
      ensures Counters() == SC.Run(Served(history, kind, others, id, now))
      ensures Tame(history, others) && now != 0 ==> SC.AllAdmissible(Served(history, kind, others, id, now))
      ensures Tame(history, others) && now != 0 && (forall x :: 0 <= x < |sessions| ==> SC.Quiet(sessions[x].phase))
        ==> deactivateAt != 0 && tcpConn == udpConn == 0
      ensures (forall k :: 0 <= k < 8 ==> others[k] == []) ==> sessions == old(sessions) + [SC.Session(kind, SC.Done)]
      ensures (forall k :: 0 <= k < 8 ==> others[k] == []) && id !in old(connections) ==>
        && tcpConn == old(tcpConn) && udpConn == old(udpConn) && connections == old(connections)
        && tcpConnTotal == (if kind == SC.Tcp then (old(tcpConnTotal) + 1) % 0x1_0000_0000 else old(tcpConnTotal))
        && udpConnTotal == (if kind == SC.Udp then (old(udpConnTotal) + 1) % 0x1_0000_0000 else old(udpConnTotal))
        && deactivateAt == (if old(tcpConn) + old(udpConn) == 0 then now else 0)
    {
      hide SC.Run, SC.NotBy, SC.Without, Weave;
      id := |sessions|;
      var own := SC.Advance(id, now);
      ghost var begun := history + [SC.Open(kind)];
      SC.RunThen(SC.Initial, history, SC.Open(kind));
      sessions := sessions + [SC.Session(kind, SC.Looked)];
      assert Counters() == SC.Run(begun) by { SC.RunIs(begun); SC.RunIs(history); }
      CountIn(kind, id, now, others, begun);
      CountOut(kind, id, now, others, begun);
      Turn(others, id, now, 7, begun);
      connections := SC.Without(connections, id);
      Reach(id, SC.Done);
      assert others[..8] == others;
      ServedIsAdmissible(history, kind, others, id, now);
      if Tame(history, others) && now != 0 && forall x :: 0 <= x < |sessions| ==> SC.Quiet(sessions[x].phase) {
        assert SC.Opened(Counters()) by { assert Counters().sessions[id].phase.Done?; }
        SC.IdleIsStamped(Served(history, kind, others, id, now));
      }
      if forall k :: 0 <= k < 8 ==> others[k] == [] {
        AloneKeeps(begun, others, own);
        if id !in old(connections) {
          AloneIs(history, kind, others, now);
        }
      }
    }

    /** What others do before a session's step k, and the run after that step. */
    method Turn(others: seq<seq<SC.Event>>, id: nat, now: int, k: nat, ghost begun: seq<SC.Event>)
      requires k < |others| && id < |sessions| && SC.NotBy(others[k], id)
      requires Counters() == SC.Run(begun + Weave(others[..k], SC.Advance(id, now)))
      modifies this
      ensures id < |sessions| && sessions[id] == old(sessions[id])
      ensures SC.Step(Counters(), SC.Advance(id, now)) == SC.Run(begun + Weave(others[..k + 1], SC.Advance(id, now)))
    {
      hide SC.Step, SC.NotBy, SC.Run;
      var own := SC.Advance(id, now);
      ghost var es := begun + Weave(others[..k], own);
      Meanwhile(others[k], id, es);
      WeaveNext(others, k, own);
      assert begun + Weave(others[..k + 1], own) == es + others[k] + [own];
      SC.RunThen(SC.Initial, es + others[k], own);
      SC.RunIs(es + others[k] + [own]);
      SC.RunIs(es + others[k]);
    }

    /** The first part: counters up, stamp cleared, connection listed. */
    method CountIn(kind: SC.Kind, id: nat, now: int, others: seq<seq<SC.Event>>, ghost begun: seq<SC.Event>)
      requires |others| == 8 && forall k :: 0 <= k < 8 ==> SC.NotBy(others[k], id)
      requires id < |sessions| && sessions[id] == SC.Session(kind, SC.Looked)
      requires Counters() == SC.Run(begun)
      modifies this
      ensures id < |sessions| && sessions[id] == SC.Session(kind, SC.Listed)
      ensures Counters() == SC.Run(begun + Weave(others[..4], SC.Advance(id, now)))
    {
      hide SC.Run, SC.NotBy, SC.Without, Weave;
      WeaveNothing(others, SC.Advance(id, now));
      assert begun + [] == begun;
      Turn(others, id, now, 0, begun);
      if kind == SC.Tcp {
        tcpConn := tcpConn + 1;
      } else {
        udpConn := udpConn + 1;
      }
      Reach(id, SC.Counted);

      Turn(others, id, now, 1, begun);
      if kind == SC.Tcp {
        tcpConnTotal := (tcpConnTotal + 1) % 0x1_0000_0000;
      } else {
        udpConnTotal := (udpConnTotal + 1) % 0x1_0000_0000;
      }
      Reach(id, SC.Totalled);

      Turn(others, id, now, 2, begun);
      deactivateAt := 0;
      Reach(id, SC.Awake);

      Turn(others, id, now, 3, begun);
      connections := connections + [id];
      Reach(id, SC.Listed);
    }

    /** The deferred part up to the stamp: its own counter down, the other's loaded. */
    method CountOut(kind: SC.Kind, id: nat, now: int, others: seq<seq<SC.Event>>, ghost begun: seq<SC.Event>)
      requires |others| == 8 && forall k :: 0 <= k < 8 ==> SC.NotBy(others[k], id)
      requires id < |sessions| && sessions[id] == SC.Session(kind, SC.Listed)
      requires Counters() == SC.Run(begun + Weave(others[..4], SC.Advance(id, now)))
      modifies this
      ensures id < |sessions| && sessions[id] == SC.Session(kind, SC.Leaving)
      ensures Counters() == SC.Run(begun + Weave(others[..7], SC.Advance(id, now)))
    {
      hide SC.Run, SC.NotBy, SC.Without, Weave;
      Turn(others, id, now, 4, begun);
      var own;
      if kind == SC.Tcp {
        tcpConn := tcpConn - 1;
        own := tcpConn;
      } else {
        udpConn := udpConn - 1;
        own := udpConn;
      }
      Reach(id, SC.Left(own));

      Turn(others, id, now, 5, begun);
      var sum := own + if kind == SC.Tcp then udpConn else tcpConn;
      Reach(id, SC.Compared(sum));

      Turn(others, id, now, 6, begun);
      if sum == 0 {
        deactivateAt := now;
      }
      Reach(id, SC.Leaving);
    }
  }

  /** A session's steps, each after what others did before it. */
  function Weave<E>(others: seq<seq<E>>, own: E): seq<E> {
    if others == [] then []
    else Weave(others[..|others| - 1], own) + others[|others| - 1] + [own]
  }

  /** The run of a session that goes through, after a history. */
  function Served(history: seq<SC.Event>, kind: SC.Kind, others: seq<seq<SC.Event>>, id: nat, now: int): seq<SC.Event> {
    history + [SC.Open(kind)] + Weave(others, SC.Advance(id, now))
  }

  predicate Tame(history: seq<SC.Event>, others: seq<seq<SC.Event>>) {
    SC.AllAdmissible(history) && forall k :: 0 <= k < |others| ==> SC.AllAdmissible(others[k])
  }

  lemma WeaveNothing<E>(others: seq<seq<E>>, own: E)
    ensures Weave(others[..0], own) == []
  {
  }

  lemma WeaveNext<E>(others: seq<seq<E>>, k: nat, own: E)
    requires k < |others|
    ensures Weave(others[..k + 1], own) == Weave(others[..k], own) + others[k] + [own]
  {
    assert others[..k + 1][..k] == others[..k];
  }

  lemma {:induction false} WeaveIsAdmissible(others: seq<seq<SC.Event>>, own: SC.Event)
    requires (forall k :: 0 <= k < |others| ==> SC.AllAdmissible(others[k])) && SC.Admissible(own)
    ensures SC.AllAdmissible(Weave(others, own))
  {
    if others != [] {
      WeaveIsAdmissible(others[..|others| - 1], own);
    }
  }

  lemma ServedIsAdmissible(history: seq<SC.Event>, kind: SC.Kind, others: seq<seq<SC.Event>>, id: nat, now: int)
    ensures Tame(history, others) && now != 0 ==> SC.AllAdmissible(Served(history, kind, others, id, now))
  {
    if Tame(history, others) && now != 0 {
      WeaveIsAdmissible(others, SC.Advance(id, now));
      hide Weave;
    }
  }

  /** A session alone changes no other. */
  lemma {:induction false} AloneKeeps(es: seq<SC.Event>, others: seq<seq<SC.Event>>, own: SC.Event)
    requires own.Advance? && forall k :: 0 <= k < |others| ==> others[k] == []
    ensures var s, t := SC.Run(es), SC.Run(es + Weave(others, own));
      && |t.sessions| == |s.sessions|
      && forall x :: 0 <= x < |s.sessions| && x != own.id ==> t.sessions[x] == s.sessions[x]
  {
    if others == [] {
      assert es + [] == es;
    } else {
      var pre := others[..|others| - 1];
      AloneKeeps(es, pre, own);
      assert es + Weave(others, own) == es + Weave(pre, own) + [own];
      hide Weave, SC.Run, SC.Step;
      SC.RunThen(SC.Initial, es + Weave(pre, own), own);
      SC.RunIs(es + Weave(pre, own));
      SC.RunIs(es + Weave(pre, own) + [own]);
      OwnStepKeeps(SC.Run(es + Weave(pre, own)), own);
    }
  }

  /** Nor anything in the end but the total of its kind and the stamp. */
  lemma AloneIs(history: seq<SC.Event>, kind: SC.Kind, others: seq<seq<SC.Event>>, now: int)
    requires |others| == 8 && forall k :: 0 <= k < 8 ==> others[k] == []
    requires |SC.Run(history).sessions| !in SC.Run(history).connections
    ensures var s := SC.Run(history);
      SC.Run(Served(history, kind, others, |s.sessions|, now)) ==
        SC.State(s.tcpConn, s.udpConn,
                 if kind == SC.Tcp then (s.tcpTotal + 1) % 0x1_0000_0000 else s.tcpTotal,
                 if kind == SC.Udp then (s.udpTotal + 1) % 0x1_0000_0000 else s.udpTotal,
                 if s.tcpConn + s.udpConn == 0 then now else 0,
                 s.connections, s.sessions + [SC.Session(kind, SC.Done)])
  {
    hide SC.Run, SC.RunFrom, SC.Step, Weave;
    var s := SC.Run(history);
    var begun, own := history + [SC.Open(kind)], SC.Advance(|s.sessions|, now);
    SC.RunIs(history);
    SC.RunIs(begun);
    SC.RunThen(SC.Initial, history, SC.Open(kind));
    WeaveNothing(others, own);
    assert begun + [] == begun;
    AloneNext(begun, others, 0, own);
    AloneNext(begun, others, 1, own);
    AloneNext(begun, others, 2, own);
    AloneNext(begun, others, 3, own);
    AloneNext(begun, others, 4, own);
    AloneNext(begun, others, 5, own);
    AloneNext(begun, others, 6, own);
    AloneNext(begun, others, 7, own);
    assert others[..8] == others;
    EightSteps(s, kind, now);
  }

  lemma AloneNext(begun: seq<SC.Event>, others: seq<seq<SC.Event>>, k: nat, own: SC.Event)
    requires k < |others| && others[k] == []
    ensures SC.Run(begun + Weave(others[..k + 1], own)) == SC.Step(SC.Run(begun + Weave(others[..k], own)), own)
  {
    hide SC.Run, SC.Step, Weave;
    WeaveNext(others, k, own);
    var es := begun + Weave(others[..k], own);
    assert begun + Weave(others[..k + 1], own) == es + [own];
    SC.RunThen(SC.Initial, es, own);
    SC.RunIs(es);
    SC.RunIs(es + [own]);
  }

  /** The steps of one session on a statistics object, from any state. */
  lemma EightSteps(s: SC.State, kind: SC.Kind, now: int)
    requires |s.sessions| !in s.connections
    ensures var e := SC.Advance(|s.sessions|, now);
      var t := SC.Step(SC.Step(SC.Step(SC.Step(SC.Step(SC.Step(SC.Step(SC.Step(SC.Step(s,
                 SC.Open(kind)), e), e), e), e), e), e), e), e);
      t == SC.State(s.tcpConn, s.udpConn,
                    if kind == SC.Tcp then (s.tcpTotal + 1) % 0x1_0000_0000 else s.tcpTotal,
                    if kind == SC.Udp then (s.udpTotal + 1) % 0x1_0000_0000 else s.udpTotal,
                    if s.tcpConn + s.udpConn == 0 then now else 0,
                    s.connections, s.sessions + [SC.Session(kind, SC.Done)])
  {
    hide SC.Step;
    ComesIn(s, kind, now);
    GoesOut(In(s, kind), kind, s.connections, now);
  }

  /** A session is in: counted, totalled, and on the list, with the stamp cleared. */
  function In(s: SC.State, kind: SC.Kind): SC.State {
    SC.State(if kind == SC.Tcp then s.tcpConn + 1 else s.tcpConn, if kind == SC.Udp then s.udpConn + 1 else s.udpConn,
             if kind == SC.Tcp then (s.tcpTotal + 1) % 0x1_0000_0000 else s.tcpTotal,
             if kind == SC.Udp then (s.udpTotal + 1) % 0x1_0000_0000 else s.udpTotal,
             0, s.connections + [|s.sessions|], s.sessions + [SC.Session(kind, SC.Listed)])
  }

  lemma ComesIn(s: SC.State, kind: SC.Kind, now: int)
    ensures var e := SC.Advance(|s.sessions|, now);
      SC.Step(SC.Step(SC.Step(SC.Step(SC.Step(s, SC.Open(kind)), e), e), e), e) == In(s, kind)
  {
    hide SC.Without;
    var e, t := SC.Advance(|s.sessions|, now), In(s, kind);
    var s0 := s.(sessions := s.sessions + [SC.Session(kind, SC.Looked)]);
    var s1 := At(s0.(tcpConn := t.tcpConn, udpConn := t.udpConn), kind, SC.Counted);
    var s2 := At(s1.(tcpTotal := t.tcpTotal, udpTotal := t.udpTotal), kind, SC.Totalled);
    var s3 := At(s2.(deactivateAt := 0), kind, SC.Awake);
    assert SC.Step(s, SC.Open(kind)) == s0;
    assert SC.Step(s0, e) == s1;
    assert SC.Step(s1, e) == s2;
    assert SC.Step(s2, e) == s3;
    assert SC.Step(s3, e) == t;
  }

  lemma GoesOut(s: SC.State, kind: SC.Kind, list: seq<nat>, now: int)
    requires s.sessions != [] && s.sessions[|s.sessions| - 1] == SC.Session(kind, SC.Listed)
    requires |s.sessions| - 1 !in list && s.connections == list + [|s.sessions| - 1]
    ensures var e := SC.Advance(|s.sessions| - 1, now);
      SC.Step(SC.Step(SC.Step(SC.Step(s, e), e), e), e) ==
        At(s.(tcpConn := if kind == SC.Tcp then s.tcpConn - 1 else s.tcpConn,
              udpConn := if kind == SC.Udp then s.udpConn - 1 else s.udpConn,
              deactivateAt := if s.tcpConn + s.udpConn == 1 then now else s.deactivateAt,
              connections := list), kind, SC.Done)
  {
    hide SC.Step;
    var tcp := if kind == SC.Tcp then s.tcpConn - 1 else s.tcpConn;
    var udp := if kind == SC.Udp then s.udpConn - 1 else s.udpConn;
    LeavesAndCompares(s, kind, now);
    StampsAndGoes(At(s.(tcpConn := tcp, udpConn := udp), kind, SC.Compared(tcp + udp)), kind, tcp + udp, list, now);
  }

  lemma LeavesAndCompares(s: SC.State, kind: SC.Kind, now: int)
    requires s.sessions != [] && s.sessions[|s.sessions| - 1] == SC.Session(kind, SC.Listed)
    ensures var e := SC.Advance(|s.sessions| - 1, now);
      SC.Step(SC.Step(s, e), e) ==
        At(s.(tcpConn := if kind == SC.Tcp then s.tcpConn - 1 else s.tcpConn,
              udpConn := if kind == SC.Udp then s.udpConn - 1 else s.udpConn),
           kind, SC.Compared(s.tcpConn + s.udpConn - 1))
  {
    hide SC.Without;
    var e := SC.Advance(|s.sessions| - 1, now);
    var tcp := if kind == SC.Tcp then s.tcpConn - 1 else s.tcpConn;
    var udp := if kind == SC.Udp then s.udpConn - 1 else s.udpConn;
    assert SC.Step(s, e) == At(s.(tcpConn := tcp, udpConn := udp), kind, SC.Left(if kind == SC.Tcp then tcp else udp));
  }

  lemma StampsAndGoes(s: SC.State, kind: SC.Kind, sum: int, list: seq<nat>, now: int)
    requires s.sessions != [] && s.sessions[|s.sessions| - 1] == SC.Session(kind, SC.Compared(sum))
    requires |s.sessions| - 1 !in list && s.connections == list + [|s.sessions| - 1]
    ensures var e := SC.Advance(|s.sessions| - 1, now);
      SC.Step(SC.Step(s, e), e) ==
        At(s.(deactivateAt := if sum == 0 then now else s.deactivateAt, connections := list), kind, SC.Done)
  {
    hide SC.Without;
    var e := SC.Advance(|s.sessions| - 1, now);
    WithoutLast(list, |s.sessions| - 1);
    assert SC.Step(s, e) == At(s.(deactivateAt := if sum == 0 then now else s.deactivateAt), kind, SC.Leaving);
  }

  /** The last session at this phase. */
  function At(s: SC.State, kind: SC.Kind, phase: SC.Phase): SC.State
    requires s.sessions != []
  {
    s.(sessions := s.sessions[..|s.sessions| - 1] + [SC.Session(kind, phase)])
  }

  lemma {:induction false} WithoutLast(list: seq<nat>, id: nat)
    requires id !in list
    ensures SC.Without(list + [id], id) == list
  {
    if list != [] {
      WithoutLast(list[1..], id);
      assert (list + [id])[1..] == list[1..] + [id];
    }
  }

  lemma OwnStepKeeps(s: SC.State, own: SC.Event)
    requires own.Advance?
    ensures var t := SC.Step(s, own);
      && |t.sessions| == |s.sessions|
      && forall x :: 0 <= x < |s.sessions| && x != own.id ==> t.sessions[x] == s.sessions[x]
  {
    hide SC.Without;
  }

  /** A read that is not interrupted takes the five steps of a reader, whatever other readers
      are doing. */
  lemma ExportIsFiveSteps(s: State)
    ensures var id := |s.readers|;
      var e := Advance(id);
      var t := Step(Step(Step(Step(Step(Step(s, StartRead), e), e), e), e), e);
      && t.up == Pair(0, AddTo(s.up.total, s.up.pending))
      && t.down == Pair(0, AddTo(s.down.total, s.down.pending))
      && t.readers == s.readers + [Reported(s.up.pending, t.up.total, s.down.pending, t.down.total)]
  {
    hide AddTo;
    var id, rs := |s.readers|, s.readers;
    var up, down := AddTo(s.up.total, s.up.pending), AddTo(s.down.total, s.down.pending);
    var s0 := s.(readers := rs + [Ready]);
    var s1 := State(Pair(0, s.up.total), s.down, rs + [UpSwapped(s.up.pending)]);
    var s2 := State(Pair(0, up), s.down, rs + [UpAdded(s.up.pending, up)]);
    var s3 := State(Pair(0, up), Pair(0, s.down.total), rs + [DownSwapped(s.up.pending, up, s.down.pending)]);
    var s4 := State(Pair(0, up), Pair(0, down), rs + [DownAdded(s.up.pending, up, s.down.pending, down)]);
    assert Step(s, StartRead) == s0;
    assert Step(s0, Advance(id)) == s1;
    assert Step(s1, Advance(id)) == s2;
    assert Step(s2, Advance(id)) == s3;
    assert Step(s3, Advance(id)) == s4;
  }

  lemma StartIs(s: State)
    ensures Step(s, StartRead) == s.(readers := s.readers + [Ready])
  {
  }

  lemma RunNothing(s: State)
    ensures RunFrom(s, []) == s
  {
  }

  lemma ReadBegins(s: State, others: seq<seq<Event>>, id: nat)
    ensures RunFrom(s, [StartRead] + Weave(others[..0], Advance(id))) == s.(readers := s.readers + [Ready])
  {
    RunThen(s, [], StartRead);
    assert [] + [StartRead] == [StartRead] + Weave(others[..0], Advance(id));
  }

  /** The k-th step of a read, after what others did before it. */
  lemma ReadNext(s: State, others: seq<seq<Event>>, k: nat, id: nat)
    requires k < |others|
    ensures RunFrom(s, [StartRead] + Weave(others[..k + 1], Advance(id)))
         == Step(RunFrom(RunFrom(s, [StartRead] + Weave(others[..k], Advance(id))), others[k]), Advance(id))
  {
    hide Step, RunFrom, Weave;
    var es := [StartRead] + Weave(others[..k], Advance(id));
    WeaveNext(others, k, Advance(id));
    assert [StartRead] + Weave(others[..k + 1], Advance(id)) == es + others[k] + [Advance(id)];
    RunThen(s, es + others[k], Advance(id));
    RunAppend(s, es, others[k]);
  }

  /** When nobody else does anything, a read is five steps. */
  lemma QuietRead(s: State, others: seq<seq<Event>>)
    requires |others| == 5 && forall k :: 0 <= k < 5 ==> others[k] == []
    ensures var id := |s.readers|;
      var t := RunFrom(s, [StartRead] + Weave(others, Advance(id)));
      && t.up == Pair(0, AddTo(s.up.total, s.up.pending))
      && t.down == Pair(0, AddTo(s.down.total, s.down.pending))
      && t.readers == s.readers + [Reported(s.up.pending, t.up.total, s.down.pending, t.down.total)]
  {
    hide Step, RunFrom, Weave;
    var id := |s.readers|;
    ReadBegins(s, others, id);
    StartIs(s);
    QuietNext(s, others, 0, id);
    QuietNext(s, others, 1, id);
    QuietNext(s, others, 2, id);
    QuietNext(s, others, 3, id);
    QuietNext(s, others, 4, id);
    assert others[..5] == others;
    ExportIsFiveSteps(s);
  }

  lemma QuietNext(s: State, others: seq<seq<Event>>, k: nat, id: nat)
    requires k < |others| && others[k] == []
    ensures RunFrom(s, [StartRead] + Weave(others[..k + 1], Advance(id)))
         == Step(RunFrom(s, [StartRead] + Weave(others[..k], Advance(id))), Advance(id))
  {
    hide Step, RunFrom, Weave;
    ReadNext(s, others, k, id);
    RunNothing(RunFrom(s, [StartRead] + Weave(others[..k], Advance(id))));
  }

  /** This row is what a read made of one app, whose traffic went from s to t meanwhile. */
  ghost predicate IsRow(uid: Uid, others: seq<seq<Event>>, row: Row, s: State, t: State, c: SC.State) {
    && |others| == 5 && |s.readers| < |t.readers| && t.readers[|s.readers|].Reported?
    && t == RunFrom(s, [StartRead] + Weave(others, Advance(|s.readers|)))
    && var r := t.readers[|s.readers|];
    && row.uid == uid
    && row.uplink == ToInt64(r.up) && row.uplinkTotal == ToInt64(r.upTotal)
    && row.downlink == ToInt64(r.down) && row.downlinkTotal == ToInt64(r.downTotal)
    && row.tcpConn == c.tcpConn && row.udpConn == c.udpConn
    && row.tcpConnTotal == ToInt32(c.tcpTotal) && row.udpConnTotal == ToInt32(c.udpTotal)
    && row.deactivateAt == ToInt32(c.deactivateAt)
    && ((forall k :: 0 <= k < 5 ==> others[k] == []) ==>
          && row.uplink == ToInt64(s.up.pending) && row.downlink == ToInt64(s.down.pending)
          && row.uplinkTotal == ToInt64(t.up.total) && row.downlinkTotal == ToInt64(t.down.total)
          && t.up == Pair(0, (s.up.total + s.up.pending) % 0x1_0000_0000_0000_0000)
          && t.down == Pair(0, (s.down.total + s.down.pending) % 0x1_0000_0000_0000_0000))
  }

  /** While less than 2^63 bytes went each way the row is exact: nothing is negative or wrapped,
      and its totals are at most what was carried until the read was over, by whomever. */
  lemma RowIsExact(history: seq<Event>, uid: Uid, others: seq<seq<Event>>, row: Row, t: State, c: SC.State)
    requires IsRow(uid, others, row, Run(history), t, c)
    requires var es := history + ([StartRead] + Weave(others, Advance(|Run(history).readers|)));
      Traffic.Bytes(es, Up) < 0x8000_0000_0000_0000 && Traffic.Bytes(es, Down) < 0x8000_0000_0000_0000
    ensures var es := history + ([StartRead] + Weave(others, Advance(|Run(history).readers|)));
      && t == Run(es)
      && 0 <= row.uplink <= row.uplinkTotal <= Traffic.Bytes(es, Up)
      && 0 <= row.downlink <= row.downlinkTotal <= Traffic.Bytes(es, Down)
      && var r := t.readers[|Run(history).readers|];
         && row.uplink == r.up && row.uplinkTotal == r.upTotal
         && row.downlink == r.down && row.downlinkTotal == r.downTotal
  {
    hide Traffic.Bytes, Weave, RunFrom, Run;
    var id := |Run(history).readers|;
    var more := [StartRead] + Weave(others, Advance(id));
    RunIs(history);
    RunIs(history + more);
    RunAppend(Initial, history, more);
    ExportsAreExact(history + more, Up, id);
    ExportsAreExact(history + more, Down, id);
  }

  class Apps {
    var trafficStats: bool
    var appStats: map<Uid, Stats>

    constructor (trafficStats: bool)
      ensures Valid() && this.trafficStats == trafficStats && appStats == map[]
    {
      this.trafficStats, appStats := trafficStats, map[];
    }

    /** Every app has its own object. */
    ghost predicate Valid()
      reads this
    {
      forall u, v :: u in appStats && v in appStats && appStats[u] == appStats[v] ==> u == v
    }

    method ReadOne(uid: Uid, others: seq<seq<Event>>) returns (row: Row)
      requires uid in appStats
      requires |others| == 5 && forall k :: 0 <= k < 5 ==> NotBy(others[k], |appStats[uid].readers|)
      modifies appStats[uid]
      ensures appStats[uid].Counters() == old(appStats[uid].Counters())
      ensures IsRow(uid, others, row, old(appStats[uid].Flowing()), appStats[uid].Flowing(), appStats[uid].Counters())
    {
      hide RunFrom, Weave, NotBy;
      row := appStats[uid].Export(uid, others);
    }

    /** Reports every app once, in some order, while sessions and other readers go on. */
    method ReadAppTraffics(others: map<Uid, seq<seq<Event>>>) returns (rows: seq<Row>, ghost rowOf: map<Uid, Row>)
      requires Valid()
      requires forall u :: u in appStats ==>
        u in others && |others[u]| == 5 && forall k :: 0 <= k < 5 ==> NotBy(others[u][k], |appStats[u].readers|)
      modifies appStats.Values
      ensures Valid()
      ensures !trafficStats ==> rows == [] && unchanged(appStats.Values)
      ensures trafficStats ==> |rows| == |appStats|
      ensures trafficStats ==> forall u :: u in appStats ==>
        && u in rowOf && rowOf[u] in rows
        && appStats[u].Counters() == old(appStats[u].Counters())
        && IsRow(u, others[u], rowOf[u], old(appStats[u].Flowing()), appStats[u].Flowing(), appStats[u].Counters())
    {
      hide IsRow, NotBy, Stats.Flowing, Stats.Counters;
      rows, rowOf := [], map[];
      if !trafficStats {
        return;
      }
      var rest := appStats.Keys;
      while rest != {}
        invariant rest <= appStats.Keys
        invariant |rows| + |rest| == |appStats|
        invariant forall u :: u in appStats && u !in rest ==>
          && u in rowOf && rowOf[u] in rows
          && appStats[u].Counters() == old(appStats[u].Counters())
          && IsRow(u, others[u], rowOf[u], old(appStats[u].Flowing()), appStats[u].Flowing(), appStats[u].Counters())
        invariant forall u :: u in rest ==> unchanged(appStats[u])
      {
        var uid :| uid in rest;
        var row := ReadOne(uid, others[uid]);
        rows, rowOf := rows + [row], rowOf[uid := row];
        rest := rest - {uid};
      }
    }

    /** Closes each connection on the app's list once, in list order. */
    method CloseConnections(uid: int) returns (closed: seq<nat>)
      requires -0x8000_0000 <= uid < 0x8000_0000
      ensures closed == if trafficStats && uid % 0x1_0000 in appStats then appStats[uid % 0x1_0000].connections else []
    {
      closed := [];
      if !trafficStats || uid % 0x1_0000 !in appStats {
        return;
      }
      var list := appStats[uid % 0x1_0000].connections;
      var i := 0;
      while i < |list|
        invariant i <= |list|
        invariant closed == list[..i]
      {
        closed := closed + [list[i]];
        i := i + 1;
      }
    }

    /** Forgets every statistics object there was. */
    method ResetAppTraffics()
      requires Valid()
      modifies this`appStats
      ensures appStats == if trafficStats then map[] else old(appStats)
      ensures Valid()
    {
      if !trafficStats {
        return;
      }
      var toDel := appStats.Keys;
      while toDel != {}
        invariant appStats.Keys == toDel
        invariant forall u :: u in appStats ==> u in old(appStats) && appStats[u] == old(appStats)[u]
      {
        var uid :| uid in toDel;
        appStats := appStats - {uid};
        toDel := toDel - {uid};
      }
    }
  }

  /** The connections closed are, each exactly once, those between push and removal in the
      statistics object's run. */
  lemma ClosesEachListedOnce(es: seq<SC.Event>, id: nat)
    requires SC.AllAdmissible(es)
    ensures var s := SC.Run(es);
            multiset(s.connections)[id] == if id < |s.sessions| && SC.InList(s.sessions[id].phase) then 1 else 0
  {
    SC.CountersAndListAreExact(es);
    CountInDistinct(SC.Run(es).connections, id);
  }

  lemma {:induction false} CountInDistinct(list: seq<nat>, id: nat)
    requires SC.NoDuplicates(list)
    ensures multiset(list)[id] == if id in list then 1 else 0
  {
    if list != [] {
      var rest := list[1..];
      assert list == [list[0]] + rest;
      assert forall i :: 0 <= i < |rest| ==> rest[i] == list[i + 1];
      CountInDistinct(rest, id);
    }
  }
}
