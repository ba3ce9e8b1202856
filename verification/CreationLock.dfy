/** How goroutines that want the same statistics object or connection create it once: a load,
    `LoadOrStore` of a lock entry, and a condition on which the others wait (tun.go). Every
    event is one atomic operation, and any number of goroutines interleave.

    A round is one goroutine's attempt to get the object of one key. The goroutine of a UDP
    packet that creates a connection runs a second round, for its app's statistics, inside
    the first. The condition that a round offers to `LoadOrStore` is named by the round. */
module CreationLock {
  import opened Bytes
  import opened LockKeys

  datatype Phase =
    | Looking                 // about to load the object
    | Missed                  // it was not there
    | Lost(cond: nat)         // another round's lock entry was there; about to wait
    | Waiting(cond: nat)
    | Woken(cond: nat)
    | Won                     // the lock entry is this round's: about to create the object
    | Counting(inner: nat)    // the connection was dialled; in the round for the statistics
    | Stored                  // the object is in the table
    | Unrouted                // no handler for the ping
    | Aborted                 // dialling failed
    | Deleted                 // the lock entry was removed
    | Released                // and the condition was broadcast
    | Served                  // it has, or at least looked for, the object of another round
    | Panicked

  /** What a round has put into the table, and whether its read loop has ended. */
  datatype Slot = Empty | Open | Closed

  datatype Round = Round(errand: Errand, phase: Phase, slot: Slot)

  /** `udpTable` and `appStats` are one table: a value is named by the round that stored it. */
  datatype State = State(table: map<Key, nat>, locks: map<Key, nat>, rounds: seq<Round>)

  datatype Event =
    | Spawn(errand: Errand)
    | Advance(id: nat, ok: bool)     // ok: dialling succeeded, a handler was found
    | Close(id: nat)                 // the read loop of a stored connection ends
    | Reset(uid: nat)                // ResetAppTraffics deletes one app's statistics

  const Initial := State(map[], map[], [])

  function Goto(s: State, id: nat, phase: Phase): State
    requires id < |s.rounds|
  {
    s.(rounds := s.rounds[id := s.rounds[id].(phase := phase)])
  }

  function Store(s: State, id: nat): State
    requires id < |s.rounds|
  {
    s.(table := s.table[KeyOf(s.rounds[id].errand) := id],
       rounds := s.rounds[id := s.rounds[id].(phase := Stored, slot := Open)])
  }

  /** Broadcast: every round that waits on the condition is woken. */
  function Wake(rounds: seq<Round>, cond: nat): (r: seq<Round>)
    ensures |r| == |rounds|
    ensures forall i :: 0 <= i < |r| ==>
      r[i] == if rounds[i].phase == Waiting(cond) then rounds[i].(phase := Woken(cond)) else rounds[i]
  {
    seq(|rounds|, i requires 0 <= i < |rounds| =>
      if rounds[i].phase == Waiting(cond) then rounds[i].(phase := Woken(cond)) else rounds[i])
  }

  /** The creator of the object. */
  function Create(s: State, id: nat, ok: bool): State
    requires id < |s.rounds|
  {
    match s.rounds[id].errand
    case Conn(_) => Store(s, id)
    case Packet(_, _, app) =>
      if !ok then Goto(s, id, Aborted)
      else if app.None? then Store(s, id)
      else
        var t := Goto(s, id, Counting(|s.rounds|));
        t.(rounds := t.rounds + [Round(Conn(app.value), Looking, Empty)])
    case Ping(_, _) => if ok then Store(s, id) else Goto(s, id, Unrouted)
  }

  predicate Finished(p: Phase) {
    p.Served? || p.Released?
  }

  /** The next operation of a round. */
  function Next(s: State, id: nat, ok: bool): State
    requires id < |s.rounds|
  {
    var key := KeyOf(s.rounds[id].errand);
    match s.rounds[id].phase
    case Looking => Goto(s, id, if key in s.table then Served else Missed)
    case Missed =>
      if key in s.locks then Goto(s, id, Lost(s.locks[key]))
      else Goto(s.(locks := s.locks[key := id]), id, Won)
    case Lost(cond) => Goto(s, id, Waiting(cond))
    case Woken(_) => Goto(s, id, if s.rounds[id].errand.Conn? && key !in s.table then Panicked else Served)
    case Won => Create(s, id, ok)
    case Counting(inner) => if inner < |s.rounds| && Finished(s.rounds[inner].phase) then Store(s, id) else s
    case Stored => Goto(s.(locks := s.locks - {key}), id, Deleted)
    case Unrouted => Goto(s.(locks := s.locks - {key}), id, Deleted)
    case Deleted => Goto(s.(rounds := Wake(s.rounds, id)), id, Released)
    case _ => s
  }

  /** A ping's read loop runs from the store on, a UDP connection's after the broadcast. */
  predicate MayClose(r: Round) {
    r.slot.Open? && (r.errand.Ping? || (r.errand.Packet? && r.phase.Released?))
  }

  function Step(s: State, e: Event): State {
    match e
    case Spawn(errand) => s.(rounds := s.rounds + [Round(errand, Looking, Empty)])
    case Advance(id, ok) => if id < |s.rounds| then Next(s, id, ok) else s
    case Close(id) =>
      if id < |s.rounds| && MayClose(s.rounds[id]) then
        s.(table := s.table - {KeyOf(s.rounds[id].errand)}, rounds := s.rounds[id := s.rounds[id].(slot := Closed)])
      else s
    case Reset(uid) => s.(table := s.table - {Uid(uid)})
  }

  function RunFrom(s: State, es: seq<Event>): State {
    if es == [] then s else Step(RunFrom(s, es[..|es| - 1]), es[|es| - 1])
  }

  function Run(es: seq<Event>): State {
    RunFrom(Initial, es)
  }

  predicate Admissible(es: seq<Event>) {
    forall i :: 0 <= i < |es| && es[i].Spawn? ==> WellFormed(es[i].errand)
  }

  predicate NeverReset(es: seq<Event>, uid: nat) {
    forall i :: 0 <= i < |es| ==> es[i] != Reset(uid)
  }

  lemma {:induction false} RunOn(s: State, es: seq<Event>, more: seq<Event>)
    ensures RunFrom(s, es + more) == RunFrom(RunFrom(s, es), more)
  {
    hide Step;
    if more == [] {
      assert es + more == es;
    } else {
      RunOn(s, es, more[..|more| - 1]);
      assert (es + more)[..|es + more| - 1] == es + more[..|more| - 1];
    }
  }

  lemma RunThen(s: State, es: seq<Event>, e: Event)
    ensures RunFrom(s, es + [e]) == Step(RunFrom(s, es), e)
  {
    assert (es + [e])[..|es|] == es;
  }

  lemma After(es: seq<Event>, s: State, e: Event, s': State)
    requires Run(es) == s && Step(s, e) == s'
    ensures Run(es + [e]) == s'
  {
    RunThen(Initial, es, e);
  }

  // ---- What holds in every reachable state ----

  /** Between winning the lock entry and deleting it, or given up in between. */
  predicate Owning(p: Phase) {
    p.Won? || p.Counting? || p.Stored? || p.Unrouted? || p.Aborted?
  }

  predicate Winner(p: Phase) {
    Owning(p) || p.Deleted? || p.Released?
  }

  predicate Follower(p: Phase) {
    p.Lost? || p.Waiting? || p.Woken?
  }

  /** A lock entry exists exactly for the key of an owner, and names it. */
  predicate LocksOk(s: State) {
    && (forall k :: k in s.locks ==>
          s.locks[k] < |s.rounds| && KeyOf(s.rounds[s.locks[k]].errand) == k && Owning(s.rounds[s.locks[k]].phase))
    && (forall i :: 0 <= i < |s.rounds| && Owning(s.rounds[i].phase) ==>
          KeyOf(s.rounds[i].errand) in s.locks && s.locks[KeyOf(s.rounds[i].errand)] == i)
  }

  /** The condition a round follows belongs to a winner of the same key, and only a broadcast
      wakes. */
  predicate FollowersOk(s: State) {
    forall i :: 0 <= i < |s.rounds| && Follower(s.rounds[i].phase) ==>
      var c := s.rounds[i].phase.cond;
      && c < |s.rounds| && KeyOf(s.rounds[c].errand) == KeyOf(s.rounds[i].errand)
      && Winner(s.rounds[c].phase)
      && (s.rounds[i].phase.Woken? ==> s.rounds[c].phase.Released?)
  }

  predicate RoundOk(r: Round) {
    && WellFormed(r.errand)
    && (r.phase.Stored? ==> !r.slot.Empty?)
    && ((r.phase.Deleted? || r.phase.Released?) && !r.errand.Ping? ==> !r.slot.Empty?)
    && (r.phase.Unrouted? ==> r.errand.Ping?)
    && (r.phase.Aborted? || r.phase.Counting? ==> r.errand.Packet?)
    && (!r.slot.Empty? ==> r.phase.Stored? || r.phase.Deleted? || r.phase.Released?)
  }

  predicate RoundsOk(s: State) {
    forall i :: 0 <= i < |s.rounds| ==> RoundOk(s.rounds[i])
  }

  /** A value in the table is a connection, or statistics, stored for that key and open. */
  predicate TableOk(s: State) {
    forall k :: k in s.table ==>
      && s.table[k] < |s.rounds| && KeyOf(s.rounds[s.table[k]].errand) == k
      && s.rounds[s.table[k]].slot.Open?
  }

  ghost predicate Invariant(s: State) {
    LocksOk(s) && FollowersOk(s) && RoundsOk(s) && TableOk(s)
  }

  /** A round's own step. */
  lemma OwnStep(s: State, id: nat, ok: bool)
    requires id < |s.rounds| && RoundOk(s.rounds[id])
    ensures |Next(s, id, ok).rounds| >= |s.rounds|
    ensures RoundOk(Next(s, id, ok).rounds[id])
    ensures Next(s, id, ok).rounds[id].errand == s.rounds[id].errand
  {
    hide KeyOf, WellFormed;
  }

  /** What another round is after a step of round id: a broadcast wakes the waiting. */
  function Bystander(s: State, id: nat, i: nat): Round
    requires id < |s.rounds| && i < |s.rounds|
  {
    if s.rounds[id].phase.Deleted? && s.rounds[i].phase == Waiting(id) then s.rounds[i].(phase := Woken(id))
    else s.rounds[i]
  }

  lemma OtherRounds(s: State, id: nat, ok: bool, i: nat)
    requires id < |s.rounds| && i < |s.rounds| && i != id
    ensures |Next(s, id, ok).rounds| >= |s.rounds|
    ensures Next(s, id, ok).rounds[i] == Bystander(s, id, i)
  {
    hide KeyOf, WellFormed;
  }

  /** Rounds only begin; a round inside another is for statistics. */
  lemma NewRounds(s: State, id: nat, ok: bool, i: nat)
    requires id < |s.rounds| && |s.rounds| <= i < |Next(s, id, ok).rounds|
    ensures Next(s, id, ok).rounds[i].phase == Looking && Next(s, id, ok).rounds[i].slot == Empty
    ensures Next(s, id, ok).rounds[i].errand.Conn?
  {
    hide KeyOf, WellFormed;
  }

  lemma RoundsStep(s: State, e: Event)
    requires RoundsOk(s) && (e.Spawn? ==> WellFormed(e.errand))
    ensures RoundsOk(Step(s, e))
  {
    hide KeyOf, Next;
    var s' := Step(s, e);
    if e.Advance? && e.id < |s.rounds| {
      forall i | 0 <= i < |s'.rounds|
        ensures RoundOk(s'.rounds[i])
      {
        if i == e.id {
          OwnStep(s, i, e.ok);
        } else if i < |s.rounds| {
          OtherRounds(s, e.id, e.ok, i);
        } else {
          NewRounds(s, e.id, e.ok, i);
        }
      }
    }
  }

  /** What a round's own step does to the locks. */
  lemma LocksAfter(s: State, id: nat, ok: bool)
    requires id < |s.rounds|
    ensures |Next(s, id, ok).rounds| >= |s.rounds|
    ensures var s', k := Next(s, id, ok), KeyOf(s.rounds[id].errand);
      var p, p' := s.rounds[id].phase, s'.rounds[id].phase;
      s'.locks == if p'.Won? then s.locks[k := id]
                  else if Owning(p) && !Owning(p') then s.locks - {k}
                  else s.locks
  {
    hide KeyOf, WellFormed;
  }

  /** A round owns a key from its `LoadOrStore` that found no entry. */
  lemma WonWhenFree(s: State, id: nat, ok: bool)
    requires id < |s.rounds|
    ensures |Next(s, id, ok).rounds| >= |s.rounds|
    ensures var p, p' := s.rounds[id].phase, Next(s, id, ok).rounds[id].phase;
      && (p'.Won? ==> p.Missed? && KeyOf(s.rounds[id].errand) !in s.locks)
      && (Owning(p') ==> Owning(p) || p'.Won?)
  {
    hide KeyOf, WellFormed;
  }

  /** Other rounds keep their errands and what they own; new ones own nothing. */
  lemma OwnersElsewhere(s: State, id: nat, ok: bool)
    requires id < |s.rounds|
    ensures var s' := Next(s, id, ok);
      && |s'.rounds| >= |s.rounds|
      && (forall i :: 0 <= i < |s.rounds| && i != id ==>
            s'.rounds[i].errand == s.rounds[i].errand && Owning(s'.rounds[i].phase) == Owning(s.rounds[i].phase))
      && (forall i :: |s.rounds| <= i < |s'.rounds| ==> !Owning(s'.rounds[i].phase))
  {
    hide Next, KeyOf;
    OwnErrand(s, id, ok);
    var s' := Next(s, id, ok);
    forall i | 0 <= i < |s'.rounds| && i != id
      ensures if i < |s.rounds| then
                s'.rounds[i].errand == s.rounds[i].errand && Owning(s'.rounds[i].phase) == Owning(s.rounds[i].phase)
              else !Owning(s'.rounds[i].phase)
    {
      if i < |s.rounds| {
        OtherRounds(s, id, ok, i);
      } else {
        NewRounds(s, id, ok, i);
      }
    }
  }

  lemma OwnErrand(s: State, id: nat, ok: bool)
    requires id < |s.rounds|
    ensures |Next(s, id, ok).rounds| >= |s.rounds| && Next(s, id, ok).rounds[id].errand == s.rounds[id].errand
  {
    hide KeyOf, WellFormed;
  }

  lemma LocksStep(s: State, e: Event)
    requires LocksOk(s)
    ensures LocksOk(Step(s, e))
  {
    hide KeyOf, Next;
    if e.Advance? && e.id < |s.rounds| {
      LocksAfter(s, e.id, e.ok);
      WonWhenFree(s, e.id, e.ok);
      OwnErrand(s, e.id, e.ok);
      OwnersElsewhere(s, e.id, e.ok);
      LocksFollow(s, Next(s, e.id, e.ok), e.id);
    }
  }

  lemma LocksFollow(s: State, s': State, id: nat)
    requires LocksOk(s) && id < |s.rounds| <= |s'.rounds| && s'.rounds[id].errand == s.rounds[id].errand
    requires forall i :: 0 <= i < |s.rounds| && i != id ==>
      s'.rounds[i].errand == s.rounds[i].errand && Owning(s'.rounds[i].phase) == Owning(s.rounds[i].phase)
    requires forall i :: |s.rounds| <= i < |s'.rounds| ==> !Owning(s'.rounds[i].phase)
    requires var k, p, p' := KeyOf(s.rounds[id].errand), s.rounds[id].phase, s'.rounds[id].phase;
      && (p'.Won? ==> p.Missed? && k !in s.locks) && (Owning(p') ==> Owning(p) || p'.Won?)
      && s'.locks == (if p'.Won? then s.locks[k := id]
                      else if Owning(p) && !Owning(p') then s.locks - {k}
                      else s.locks)
    ensures LocksOk(s')
  {
    hide KeyOf;
  }

  /** A follower took the lock entry's condition, and is woken only by a broadcast on it. */
  lemma FollowerAfter(s: State, id: nat, ok: bool)
    requires id < |s.rounds|
    ensures |Next(s, id, ok).rounds| >= |s.rounds|
    ensures var p, p' := s.rounds[id].phase, Next(s, id, ok).rounds[id].phase;
      && (Follower(p') ==>
            || (p.Missed? && p'.Lost? && KeyOf(s.rounds[id].errand) in s.locks
                && p'.cond == s.locks[KeyOf(s.rounds[id].errand)])
            || (Follower(p) && p'.cond == p.cond && !p'.Woken?))
      && (Winner(p) ==> Winner(p'))
      && (p.Released? ==> p'.Released?)
      && (p.Deleted? ==> p'.Released?)
  {
    hide KeyOf, WellFormed;
  }

  lemma FollowersStep(s: State, e: Event)
    requires LocksOk(s) && RoundsOk(s) && FollowersOk(s)
    ensures FollowersOk(Step(s, e))
  {
    hide KeyOf, Next;
    var s' := Step(s, e);
    if e.Advance? && e.id < |s.rounds| {
      FollowerAfter(s, e.id, e.ok);
      OwnStep(s, e.id, e.ok);
      forall i | 0 <= i < |s'.rounds| && i != e.id
        ensures if i >= |s.rounds| then s'.rounds[i].phase.Looking? else s'.rounds[i] == Bystander(s, e.id, i)
      {
        if i < |s.rounds| {
          OtherRounds(s, e.id, e.ok, i);
        } else {
          NewRounds(s, e.id, e.ok, i);
        }
      }
      forall i | 0 <= i < |s'.rounds| && Follower(s'.rounds[i].phase)
        ensures var c := s'.rounds[i].phase.cond;
          && c < |s'.rounds| && KeyOf(s'.rounds[c].errand) == KeyOf(s'.rounds[i].errand)
          && Winner(s'.rounds[c].phase)
          && (s'.rounds[i].phase.Woken? ==> s'.rounds[c].phase.Released?)
      {
        FollowerKeeps(s, s', e.id, i);
      }
    } else {
      assert forall i :: 0 <= i < |s.rounds| ==>
        s'.rounds[i].errand == s.rounds[i].errand && s'.rounds[i].phase == s.rounds[i].phase;
    }
  }

  lemma FollowerKeeps(s: State, s': State, id: nat, i: nat)
    requires LocksOk(s) && FollowersOk(s) && id < |s.rounds| && |s.rounds| <= |s'.rounds|
    requires i < |s'.rounds| && Follower(s'.rounds[i].phase)
    requires forall j :: 0 <= j < |s'.rounds| && j != id ==>
      if j >= |s.rounds| then s'.rounds[j].phase.Looking? else s'.rounds[j] == Bystander(s, id, j)
    requires s'.rounds[id].errand == s.rounds[id].errand
    requires var p, p' := s.rounds[id].phase, s'.rounds[id].phase;
      && (Follower(p') ==>
            || (p.Missed? && p'.Lost? && KeyOf(s.rounds[id].errand) in s.locks
                && p'.cond == s.locks[KeyOf(s.rounds[id].errand)])
            || (Follower(p) && p'.cond == p.cond && !p'.Woken?))
      && (Winner(p) ==> Winner(p'))
      && (p.Released? ==> p'.Released?)
      && (p.Deleted? ==> p'.Released?)
    ensures var c := s'.rounds[i].phase.cond;
      && c < |s'.rounds| && KeyOf(s'.rounds[c].errand) == KeyOf(s'.rounds[i].errand)
      && Winner(s'.rounds[c].phase)
      && (s'.rounds[i].phase.Woken? ==> s'.rounds[c].phase.Released?)
  {
    hide KeyOf;
    var c := s'.rounds[i].phase.cond;
    assert i < |s.rounds|;
    if i == id && s.rounds[i].phase.Missed? {
      assert Owning(s.rounds[c].phase);
    } else {
      assert Follower(s.rounds[i].phase) && s.rounds[i].phase.cond == c;
    }
    assert c < |s.rounds| && KeyOf(s.rounds[c].errand) == KeyOf(s.rounds[i].errand);
    if c != id {
      assert s'.rounds[c] == s.rounds[c];
    }
  }

  /** What a round's own step does to the table. */
  lemma TableAfter(s: State, id: nat, ok: bool)
    requires id < |s.rounds|
    ensures |Next(s, id, ok).rounds| >= |s.rounds|
    ensures var s' := Next(s, id, ok);
      var r, r' := s.rounds[id], s'.rounds[id];
      if r'.phase.Stored? then
        s'.table == s.table[KeyOf(r.errand) := id] && r'.slot.Open? && (r.phase.Won? || r.phase.Counting?)
      else
        s'.table == s.table && r'.slot == r.slot
  {
    hide KeyOf, WellFormed;
  }

  lemma TableStep(s: State, e: Event)
    requires TableOk(s) && RoundsOk(s)
    ensures TableOk(Step(s, e))
  {
    hide KeyOf, Next;
    var s' := Step(s, e);
    if e.Advance? && e.id < |s.rounds| {
      TableAfter(s, e.id, e.ok);
      OwnStep(s, e.id, e.ok);
      forall i | 0 <= i < |s.rounds| && i != e.id
        ensures s'.rounds[i].errand == s.rounds[i].errand && s'.rounds[i].slot == s.rounds[i].slot
      {
        OtherRounds(s, e.id, e.ok, i);
      }
    }
  }

  lemma {:induction false} InvariantHolds(es: seq<Event>)
    requires Admissible(es)
    ensures Invariant(Run(es))
  {
    if es != [] {
      var pre, e := es[..|es| - 1], es[|es| - 1];
      InvariantHolds(pre);
      hide LocksOk, FollowersOk, RoundsOk, TableOk, Step;
      LocksStep(Run(pre), e);
      FollowersStep(Run(pre), e);
      RoundsStep(Run(pre), e);
      TableStep(Run(pre), e);
    }
  }

  // ---- Mutual exclusion ----

  /** A lock entry exists exactly for a key that some round owns, and no two rounds own one. */
  lemma OneOwnerPerKey(es: seq<Event>, i: nat, j: nat)
    requires Admissible(es) && i < |Run(es).rounds| && j < |Run(es).rounds|
    requires Owning(Run(es).rounds[i].phase) && Owning(Run(es).rounds[j].phase)
    ensures KeyOf(Run(es).rounds[i].errand) == KeyOf(Run(es).rounds[j].errand) <==> i == j
  {
    hide KeyOf, Step;
    InvariantHolds(es);
  }

  lemma EntryIffOwned(es: seq<Event>, k: Key)
    requires Admissible(es)
    ensures k in Run(es).locks <==>
      exists i :: 0 <= i < |Run(es).rounds| && Owning(Run(es).rounds[i].phase) && KeyOf(Run(es).rounds[i].errand) == k
  {
    hide KeyOf, Step;
    InvariantHolds(es);
  }

  // ---- Woken after the store ----

  /** A UDP packet that waited is woken only after the connection of its own source address and
      port was stored. */
  lemma UdpWokenAfterStore(es: seq<Event>, i: nat)
    requires Admissible(es) && i < |Run(es).rounds|
    requires Run(es).rounds[i].errand.Packet? && Run(es).rounds[i].phase.Woken?
    ensures var s := Run(es);
      var r, c := s.rounds[i], s.rounds[i].phase.cond;
      && c < |s.rounds| && s.rounds[c].errand.Packet?
      && s.rounds[c].errand.source == r.errand.source && s.rounds[c].errand.port == r.errand.port
      && !s.rounds[c].slot.Empty?
  {
    hide KeyOf, Step;
    InvariantHolds(es);
    var s := Run(es);
    var c := s.rounds[i].phase.cond;
    assert RoundOk(s.rounds[i]) && RoundOk(s.rounds[c]);
    KeysNeverCollide(s.rounds[i].errand, s.rounds[c].errand);
  }

  // ---- No panic without a reset ----

  /** Statistics that were stored are in the table. */
  predicate StatsKept(s: State, uid: nat) {
    forall i :: 0 <= i < |s.rounds| && s.rounds[i].errand == Conn(uid) && !s.rounds[i].slot.Empty? ==>
      Uid(uid) in s.table
  }

  predicate Calm(s: State, uid: nat) {
    forall i :: 0 <= i < |s.rounds| && s.rounds[i].errand == Conn(uid) ==> !s.rounds[i].phase.Panicked?
  }

  lemma PanicsWhenMissing(s: State, id: nat, ok: bool)
    requires id < |s.rounds|
    ensures |Next(s, id, ok).rounds| >= |s.rounds|
    ensures Next(s, id, ok).rounds[id].phase.Panicked? ==>
      || s.rounds[id].phase.Panicked?
      || (s.rounds[id].phase.Woken? && s.rounds[id].errand.Conn? && KeyOf(s.rounds[id].errand) !in s.table)
  {
    hide KeyOf, WellFormed;
  }

  lemma WokenFindsStats(s: State, id: nat, uid: nat)
    requires Invariant(s) && StatsKept(s, uid)
    requires id < |s.rounds| && s.rounds[id].phase.Woken? && s.rounds[id].errand == Conn(uid)
    ensures KeyOf(s.rounds[id].errand) in s.table
  {
    hide LocksOk, TableOk;
    var c := s.rounds[id].phase.cond;
    assert RoundOk(s.rounds[id]) && RoundOk(s.rounds[c]);
    KeysNeverCollide(s.rounds[id].errand, s.rounds[c].errand);
  }

  lemma CalmStep(s: State, e: Event, uid: nat)
    requires Invariant(s) && StatsKept(s, uid) && Calm(s, uid)
    ensures Calm(Step(s, e), uid)
  {
    hide KeyOf, Next, LocksOk, FollowersOk, TableOk, StatsKept;
    var s' := Step(s, e);
    if e.Advance? && e.id < |s.rounds| {
      PanicsWhenMissing(s, e.id, e.ok);
      OwnStep(s, e.id, e.ok);
      if s.rounds[e.id].phase.Woken? && s.rounds[e.id].errand == Conn(uid) {
        WokenFindsStats(s, e.id, uid);
      }
      forall i | 0 <= i < |s'.rounds| && i != e.id && s'.rounds[i].errand == Conn(uid)
        ensures !s'.rounds[i].phase.Panicked?
      {
        if i < |s.rounds| {
          OtherRounds(s, e.id, e.ok, i);
        } else {
          NewRounds(s, e.id, e.ok, i);
        }
      }
    }
  }

  /** Tables lose only keys of connections, unless statistics are reset. */
  lemma TableKeeps(s: State, e: Event, uid: nat)
    requires e != Reset(uid) && Uid(uid) in s.table
    ensures Uid(uid) in Step(s, e).table
  {
    hide Next;
    if e.Advance? && e.id < |s.rounds| {
      TableAfter(s, e.id, e.ok);
    }
  }

  lemma StatsKeptStep(s: State, e: Event, uid: nat)
    requires e != Reset(uid) && StatsKept(s, uid) && RoundsOk(s)
    ensures StatsKept(Step(s, e), uid)
  {
    hide Next, RoundOk;
    var s' := Step(s, e);
    forall i | 0 <= i < |s'.rounds| && s'.rounds[i].errand == Conn(uid) && !s'.rounds[i].slot.Empty?
      ensures Uid(uid) in s'.table
    {
      if e.Advance? && e.id < |s.rounds| {
        TableAfter(s, e.id, e.ok);
        OwnStep(s, e.id, e.ok);
        if i >= |s.rounds| {
          NewRounds(s, e.id, e.ok, i);
        } else if i != e.id {
          OtherRounds(s, e.id, e.ok, i);
        }
      }
      if i < |s.rounds| && !s.rounds[i].slot.Empty? {
        TableKeeps(s, e, uid);
      }
    }
  }

  /** In a run in which an app's statistics are never reset, none of its goroutines panics. */
  lemma {:induction false} NoPanic(es: seq<Event>, uid: nat)
    requires Admissible(es) && NeverReset(es, uid)
    ensures Calm(Run(es), uid) && StatsKept(Run(es), uid)
  {
    if es != [] {
      var pre, e := es[..|es| - 1], es[|es| - 1];
      NoPanic(pre, uid);
      InvariantHolds(pre);
      hide Calm, StatsKept, LocksOk, FollowersOk, RoundsOk, TableOk, Step;
      CalmStep(Run(pre), e, uid);
      StatsKeptStep(Run(pre), e, uid);
    }
  }
}
