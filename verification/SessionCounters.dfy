/** The live counters, the connection list and the deactivation stamp of one app's
    statistics, under every interleaving of sessions that open and close. Each event is one
    atomic operation of one session. */
module SessionCounters {
  import opened Counting

  datatype Kind = Tcp | Udp

  /** How far a session has come. */
  datatype Phase =
    | Looked              // it has the statistics object
    | Counted             // the live counter of its kind was incremented
    | Totalled            // and the total
    | Awake               // deactivateAt was set to 0
    | Listed              // its connection was pushed on the list; it is running
    | Left(own: int)      // the live counter was decremented to this value
    | Compared(sum: int)  // the other counter was loaded and added
    | Leaving             // the stamp was set if it had to be
    | Done                // the connection was removed from the list

  datatype Session = Session(kind: Kind, phase: Phase)

  datatype State = State(
    tcpConn: int, udpConn: int, tcpTotal: nat, udpTotal: nat,
    deactivateAt: int, connections: seq<nat>, sessions: seq<Session>)

  datatype Event = Open(kind: Kind) | Advance(id: nat, now: int)

  predicate Admissible(e: Event) {
    e.Advance? ==> e.now != 0
  }

  const Initial := State(0, 0, 0, 0, 0, [], [])

  function Counter(s: State, kind: Kind): int {
    if kind == Tcp then s.tcpConn else s.udpConn
  }

  function AddCounter(s: State, kind: Kind, d: int): State {
    if kind == Tcp then s.(tcpConn := s.tcpConn + d) else s.(udpConn := s.udpConn + d)
  }

  function AddTotal(s: State, kind: Kind): State {
    if kind == Tcp then s.(tcpTotal := (s.tcpTotal + 1) % 0x1_0000_0000)
    else s.(udpTotal := (s.udpTotal + 1) % 0x1_0000_0000)
  }

  function Other(kind: Kind): Kind {
    if kind == Tcp then Udp else Tcp
  }

  function Without(list: seq<nat>, id: nat): seq<nat> {
    if list == [] then []
    else if list[0] == id then list[1..]
    else [list[0]] + Without(list[1..], id)
  }

  function Goto(s: State, id: nat, phase: Phase): State
    requires id < |s.sessions|
  {
    s.(sessions := s.sessions[id := s.sessions[id].(phase := phase)])
  }

  /** One atomic operation. */
  function Step(s: State, e: Event): State {
    match e
    case Open(kind) => s.(sessions := s.sessions + [Session(kind, Looked)])
    case Advance(id, now) =>
      if id >= |s.sessions| then s
      else
        var kind := s.sessions[id].kind;
        match s.sessions[id].phase
        case Looked => Goto(AddCounter(s, kind, 1), id, Counted)
        case Counted => Goto(AddTotal(s, kind), id, Totalled)
        case Totalled => Goto(s.(deactivateAt := 0), id, Awake)
        case Awake => Goto(s.(connections := s.connections + [id]), id, Listed)
        case Listed => Goto(AddCounter(s, kind, -1), id, Left(Counter(s, kind) - 1))
        case Left(own) => Goto(s, id, Compared(own + Counter(s, Other(kind))))
        case Compared(sum) => Goto(if sum == 0 then s.(deactivateAt := now) else s, id, Leaving)
        case Leaving => Goto(s.(connections := Without(s.connections, id)), id, Done)
        case Done => s
  }

  function RunFrom(s: State, es: seq<Event>): State {
    if es == [] then s else Step(RunFrom(s, es[..|es| - 1]), es[|es| - 1])
  }

  function Run(es: seq<Event>): State {
    RunFrom(Initial, es)
  }

  predicate AllAdmissible(es: seq<Event>) {
    forall i :: 0 <= i < |es| ==> Admissible(es[i])
  }

  // ---- What holds in every reachable state ----

  /** Between increment and decrement. */
  predicate Live(p: Phase) {
    p.Counted? || p.Totalled? || p.Awake? || p.Listed?
  }

  function LiveTcp(x: Session): nat {
    if x.kind == Tcp && Live(x.phase) then 1 else 0
  }

  function LiveUdp(x: Session): nat {
    if x.kind == Udp && Live(x.phase) then 1 else 0
  }

  /** Past the increment of the total. */
  function TotalTcp(x: Session): (n: nat)
    ensures n <= 1
  {
    if x.kind == Tcp && !x.phase.Looked? && !x.phase.Counted? then 1 else 0
  }

  function TotalUdp(x: Session): (n: nat)
    ensures n <= 1
  {
    if x.kind == Udp && !x.phase.Looked? && !x.phase.Counted? then 1 else 0
  }

  /** Between push and removal. */
  predicate InList(p: Phase) {
    p.Listed? || p.Left? || p.Compared? || p.Leaving?
  }

  predicate NoDuplicates(list: seq<nat>) {
    forall i, j :: 0 <= i < j < |list| ==> list[i] != list[j]
  }

  predicate CountersOk(s: State) {
    && s.tcpConn == Sum(s.sessions, LiveTcp)
    && s.udpConn == Sum(s.sessions, LiveUdp)
    && s.tcpTotal == Sum(s.sessions, TotalTcp) % 0x1_0000_0000
    && s.udpTotal == Sum(s.sessions, TotalUdp) % 0x1_0000_0000
  }

  predicate ListOk(s: State) {
    && NoDuplicates(s.connections)
    && (forall id :: id in s.connections ==> id < |s.sessions| && InList(s.sessions[id].phase))
    && (forall id :: 0 <= id < |s.sessions| && InList(s.sessions[id].phase) ==> id in s.connections)
  }

  /** A session that is bound to set the stamp. */
  predicate WillStamp(p: Phase) {
    p == Left(0) || p == Compared(0)
  }

  predicate Opened(s: State) {
    exists id :: 0 <= id < |s.sessions| && !s.sessions[id].phase.Looked?
  }

  /** With both counters at zero after some session was counted, the stamp is set or some
      session is bound to set it. */
  predicate StampOk(s: State) {
    s.tcpConn == 0 && s.udpConn == 0 && Opened(s) ==>
      || s.deactivateAt != 0
      || exists id :: 0 <= id < |s.sessions| && WillStamp(s.sessions[id].phase)
  }

  ghost predicate Invariant(s: State) {
    CountersOk(s) && ListOk(s) && StampOk(s)
  }

  lemma OneChanges(xs: seq<Session>, id: nat, x: Session)
    requires id < |xs|
    ensures var ys := xs[id := x];
            && Sum(ys, LiveTcp) + LiveTcp(xs[id]) == Sum(xs, LiveTcp) + LiveTcp(x)
            && Sum(ys, LiveUdp) + LiveUdp(xs[id]) == Sum(xs, LiveUdp) + LiveUdp(x)
            && Sum(ys, TotalTcp) + TotalTcp(xs[id]) == Sum(xs, TotalTcp) + TotalTcp(x)
            && Sum(ys, TotalUdp) + TotalUdp(xs[id]) == Sum(xs, TotalUdp) + TotalUdp(x)
  {
    hide Sum;
    SumUpdate(xs, id, x, LiveTcp);
    SumUpdate(xs, id, x, LiveUdp);
    SumUpdate(xs, id, x, TotalTcp);
    SumUpdate(xs, id, x, TotalUdp);
  }

  /** A session's step moves the counters as it moves the session. */
  lemma OwnStep(s: State, e: Event)
    requires e.Advance? && e.id < |s.sessions|
    ensures var s' := Step(s, e);
      && |s'.sessions| == |s.sessions| && s'.sessions == s.sessions[e.id := s'.sessions[e.id]]
      && var x, x' := s.sessions[e.id], s'.sessions[e.id];
         && s'.tcpConn == s.tcpConn + LiveTcp(x') - LiveTcp(x)
         && s'.udpConn == s.udpConn + LiveUdp(x') - LiveUdp(x)
         && TotalTcp(x) <= TotalTcp(x') && TotalUdp(x) <= TotalUdp(x')
         && s'.tcpTotal == (if TotalTcp(x) < TotalTcp(x') then (s.tcpTotal + 1) % 0x1_0000_0000 else s.tcpTotal)
         && s'.udpTotal == (if TotalUdp(x) < TotalUdp(x') then (s.udpTotal + 1) % 0x1_0000_0000 else s.udpTotal)
  {
    hide Without;
  }

  lemma OneMore(xs: seq<Session>, kind: Kind)
    ensures var ys := xs + [Session(kind, Looked)];
      && Sum(ys, LiveTcp) == Sum(xs, LiveTcp) && Sum(ys, LiveUdp) == Sum(xs, LiveUdp)
      && Sum(ys, TotalTcp) == Sum(xs, TotalTcp) && Sum(ys, TotalUdp) == Sum(xs, TotalUdp)
  {
    hide Sum;
    SumAppend(xs, Session(kind, Looked), LiveTcp);
    SumAppend(xs, Session(kind, Looked), LiveUdp);
    SumAppend(xs, Session(kind, Looked), TotalTcp);
    SumAppend(xs, Session(kind, Looked), TotalUdp);
  }

  lemma CountersStep(s: State, e: Event)
    requires CountersOk(s)
    ensures CountersOk(Step(s, e))
  {
    hide Sum, LiveTcp, LiveUdp, TotalTcp, TotalUdp;
    match e
    case Open(kind) =>
      OneMore(s.sessions, kind);
    case Advance(id, now) =>
      hide Step;
      if id < |s.sessions| {
        OwnStep(s, e);
        OneChanges(s.sessions, id, Step(s, e).sessions[id]);
        assert Step(s, e).sessions == s.sessions[id := Step(s, e).sessions[id]];
      } else {
        NoStep(s, e);
      }
  }

  lemma NoStep(s: State, e: Event)
    requires e.Advance? && e.id >= |s.sessions|
    ensures Step(s, e) == s
  {
  }

  lemma {:induction false} WithoutRemoves(list: seq<nat>, id: nat)
    requires NoDuplicates(list)
    ensures NoDuplicates(Without(list, id))
    ensures forall x :: x in Without(list, id) <==> x in list && x != id
  {
    if list != [] {
      var rest := list[1..];
      assert list == [list[0]] + rest;
      assert forall i :: 0 <= i < |rest| ==> rest[i] == list[i + 1];
      assert list[0] !in rest;
      if list[0] != id {
        WithoutRemoves(rest, id);
        hide Without;
        PrependKeeps(list[0], Without(rest, id));
        assert Without(list, id) == [list[0]] + Without(rest, id) by { WithoutHead(list, id); }
      }
    }
  }

  lemma WithoutHead(list: seq<nat>, id: nat)
    requires list != [] && list[0] != id
    ensures Without(list, id) == [list[0]] + Without(list[1..], id)
  {
  }

  lemma PrependKeeps(x: nat, list: seq<nat>)
    requires NoDuplicates(list) && x !in list
    ensures NoDuplicates([x] + list)
  {
    var r := [x] + list;
    forall i, j | 0 <= i < j < |r|
      ensures r[i] != r[j]
    {
      assert r[j] == list[j - 1] && (i > 0 ==> r[i] == list[i - 1]);
    }
  }

  lemma ListStep(s: State, e: Event)
    requires ListOk(s)
    ensures ListOk(Step(s, e))
  {
    hide Without;
    var s' := Step(s, e);
    if e.Advance? && e.id < |s.sessions| {
      assert forall k :: 0 <= k < |s.sessions| && k != e.id ==> s'.sessions[k] == s.sessions[k];
      if s.sessions[e.id].phase.Leaving? {
        WithoutRemoves(s.connections, e.id);
      } else if s.sessions[e.id].phase.Awake? {
        assert e.id !in s.connections;
        assert forall x :: x in s'.connections <==> x in s.connections || x == e.id;
      } else {
        assert s'.connections == s.connections;
        assert InList(s'.sessions[e.id].phase) == InList(s.sessions[e.id].phase);
      }
    } else {
      assert forall k :: 0 <= k < |s.sessions| ==> s'.sessions[k] == s.sessions[k];
    }
  }

  lemma LiveIsCounted(s: State, id: nat)
    requires CountersOk(s) && id < |s.sessions| && Live(s.sessions[id].phase)
    ensures Counter(s, s.sessions[id].kind) > 0
    ensures s.tcpConn >= 0 && s.udpConn >= 0
  {
    SumAtLeast(s.sessions, id, if s.sessions[id].kind == Tcp then LiveTcp else LiveUdp);
  }

  lemma StampStep(s: State, e: Event)
    requires CountersOk(s) && StampOk(s) && Admissible(e)
    ensures StampOk(Step(s, e))
  {
    hide CountersOk;
    var s' := Step(s, e);
    CountersStep(s, e);
    match e
    case Open(kind) =>
      if Opened(s') {
        var id :| 0 <= id < |s'.sessions| && !s'.sessions[id].phase.Looked?;
        assert s.sessions[id] == s'.sessions[id];
      }
      assert forall id :: 0 <= id < |s.sessions| ==> s'.sessions[id] == s.sessions[id];
    case Advance(id, now) =>
      if id < |s.sessions| {
        var p, p' := s.sessions[id].phase, s'.sessions[id].phase;
        if Live(p') {
          LiveIsCounted(s', id);
        } else if p.Listed? {
          assert s'.tcpConn == 0 && s'.udpConn == 0 ==> p' == Left(0);
        } else {
          assert Counter(s, Tcp) == Counter(s', Tcp) && Counter(s, Udp) == Counter(s', Udp);
          assert !p.Looked?;
          assert Opened(s);
          assert forall k :: 0 <= k < |s.sessions| && k != id ==> s'.sessions[k] == s.sessions[k];
        }
      }
  }

  lemma {:induction false} InvariantHolds(es: seq<Event>)
    requires AllAdmissible(es)
    ensures Invariant(Run(es))
  {
    if es == [] {
    } else {
      var pre, e := es[..|es| - 1], es[|es| - 1];
      InvariantHolds(pre);
      hide CountersOk, ListOk, StampOk, Step;
      CountersStep(Run(pre), e);
      ListStep(Run(pre), e);
      StampStep(Run(pre), e);
    }
  }

  // ---- Main results ----

  /** A session that was never counted, or has finished its comparison and stamp. */
  predicate Quiet(p: Phase) {
    p.Looked? || p.Leaving? || p.Done?
  }

  lemma QuietIsStamped(s: State)
    requires Invariant(s) && Opened(s)
    requires forall id :: 0 <= id < |s.sessions| ==> Quiet(s.sessions[id].phase)
    ensures s.deactivateAt != 0 && s.tcpConn == s.udpConn == 0
  {
    hide ListOk;
    SumZero(s.sessions, LiveTcp);
    SumZero(s.sessions, LiveUdp);
  }

  /** Once every session that was ever counted has finished closing, the stamp is set. */
  lemma IdleIsStamped(es: seq<Event>)
    requires AllAdmissible(es)
    requires forall id :: 0 <= id < |Run(es).sessions| ==> Quiet(Run(es).sessions[id].phase)
    requires Opened(Run(es))
    ensures Run(es).deactivateAt != 0
    ensures Run(es).tcpConn == Run(es).udpConn == 0
  {
    hide Step, RunFrom;
    InvariantHolds(es);
    QuietIsStamped(Run(es));
  }

  /** In every reachable state the counters are the numbers of live sessions, the totals
      those of sessions ever totalled, and the list holds exactly the connections between
      push and removal, each once. */
  lemma CountersAndListAreExact(es: seq<Event>)
    requires AllAdmissible(es)
    ensures CountersOk(Run(es)) && ListOk(Run(es))
  {
    InvariantHolds(es);
  }

  lemma After(es: seq<Event>, s: State, e: Event, s': State)
    requires Run(es) == s && Step(s, e) == s'
    ensures Run(es + [e]) == s'
  {
    assert (es + [e])[..|es|] == es;
  }

  /** A TCP session opens, runs and closes up to the comparison that found both counters 0. */
  lemma ClosingRun(closer: Event)
    requires closer.Advance? && closer.id == 0
    ensures Run([] + [Open(Tcp)] + [closer] + [closer] + [closer] + [closer] + [closer] + [closer])
         == State(0, 0, 1, 0, 0, [0], [Session(Tcp, Compared(0))])
  {
    hide Run, RunFrom, Without;
    RunOfNothing();
    var es: seq<Event> := [];
    var states := [
      Initial,
      State(0, 0, 0, 0, 0, [], [Session(Tcp, Looked)]),
      State(1, 0, 0, 0, 0, [], [Session(Tcp, Counted)]),
      State(1, 0, 1, 0, 0, [], [Session(Tcp, Totalled)]),
      State(1, 0, 1, 0, 0, [], [Session(Tcp, Awake)]),
      State(1, 0, 1, 0, 0, [0], [Session(Tcp, Listed)]),
      State(0, 0, 1, 0, 0, [0], [Session(Tcp, Left(0))]),
      State(0, 0, 1, 0, 0, [0], [Session(Tcp, Compared(0))])];
    After(es, states[0], Open(Tcp), states[1]);
    After(es + [Open(Tcp)], states[1], closer, states[2]);
    After(es + [Open(Tcp)] + [closer], states[2], closer, states[3]);
    After(es + [Open(Tcp)] + [closer] + [closer], states[3], closer, states[4]);
    After(es + [Open(Tcp)] + [closer] + [closer] + [closer], states[4], closer, states[5]);
    After(es + [Open(Tcp)] + [closer] + [closer] + [closer] + [closer], states[5], closer, states[6]);
    After(es + [Open(Tcp)] + [closer] + [closer] + [closer] + [closer] + [closer], states[6], closer, states[7]);
  }

  lemma RunOfNothing()
    ensures Run([]) == Initial
  {
  }

  /** The stamp alone does not mean idle: a closing session may set it after another one
      has opened. */
  lemma StampMayRace(closer: Event, opener: Event)
    requires closer.Advance? && closer.id == 0 && closer.now != 0
    requires opener.Advance? && opener.id == 1
    ensures var s := Run([] + [Open(Tcp)] + [closer] + [closer] + [closer] + [closer] + [closer] + [closer]
                         + [Open(Tcp)] + [opener] + [opener] + [opener] + [opener] + [closer]);
            |s.sessions| == 2 && s.deactivateAt != 0 && s.tcpConn == 1 && s.sessions[1].phase == Listed
  {
    hide Run, RunFrom, Without;
    ClosingRun(closer);
    var c := Session(Tcp, Compared(0));
    var es := [] + [Open(Tcp)] + [closer] + [closer] + [closer] + [closer] + [closer] + [closer];
    var states := [
      State(0, 0, 1, 0, 0, [0], [c]),
      State(0, 0, 1, 0, 0, [0], [c, Session(Tcp, Looked)]),
      State(1, 0, 1, 0, 0, [0], [c, Session(Tcp, Counted)]),
      State(1, 0, 2, 0, 0, [0], [c, Session(Tcp, Totalled)]),
      State(1, 0, 2, 0, 0, [0], [c, Session(Tcp, Awake)]),
      State(1, 0, 2, 0, 0, [0, 1], [c, Session(Tcp, Listed)]),
      State(1, 0, 2, 0, closer.now, [0, 1], [Session(Tcp, Leaving), Session(Tcp, Listed)])];
    After(es, states[0], Open(Tcp), states[1]);
    After(es + [Open(Tcp)], states[1], opener, states[2]);
    After(es + [Open(Tcp)] + [opener], states[2], opener, states[3]);
    After(es + [Open(Tcp)] + [opener] + [opener], states[3], opener, states[4]);
    After(es + [Open(Tcp)] + [opener] + [opener] + [opener], states[4], opener, states[5]);
    After(es + [Open(Tcp)] + [opener] + [opener] + [opener] + [opener], states[5], closer, states[6]);
  }

  // ---- Other sessions' operations in between ----

  predicate NotBy(es: seq<Event>, id: nat) {
    forall i :: 0 <= i < |es| && es[i].Advance? ==> es[i].id != id
  }

  lemma {:induction false} OthersKeep(s: State, others: seq<Event>, id: nat)
    requires id < |s.sessions| && NotBy(others, id)
    ensures id < |RunFrom(s, others).sessions| && RunFrom(s, others).sessions[id] == s.sessions[id]
  {
    hide Without;
    if others != [] {
      OthersKeep(s, others[..|others| - 1], id);
    }
  }

  lemma {:induction false} RunAppend(s: State, es: seq<Event>, more: seq<Event>)
    ensures RunFrom(s, es + more) == RunFrom(RunFrom(s, es), more)
  {
    hide Step;
    if more == [] {
      assert es + more == es;
    } else {
      RunAppend(s, es, more[..|more| - 1]);
      assert (es + more)[..|es + more| - 1] == es + more[..|more| - 1];
    }
  }

  lemma RunIs(es: seq<Event>)
    ensures Run(es) == RunFrom(Initial, es)
  {
  }

  lemma RunThen(s: State, es: seq<Event>, e: Event)
    ensures RunFrom(s, es + [e]) == Step(RunFrom(s, es), e)
  {
    assert (es + [e])[..|es|] == es;
  }
}
