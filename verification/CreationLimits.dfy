/** What the creation lock does not give, and exactly what remains: sleepers that are never
    woken, keys locked forever by a failed dial, second statistics objects and the panic after
    a reset. */
module CreationLimits {
  import opened Bytes
  import opened LockKeys
  import opened CreationLock

  // ---- Lost wakeups ----

  /** A round that will wait, or waits, on a condition that was already broadcast. */
  predicate Asleep(s: State, i: nat) {
    && i < |s.rounds| && (s.rounds[i].phase.Lost? || s.rounds[i].phase.Waiting?)
    && s.rounds[i].phase.cond < |s.rounds| && s.rounds[s.rounds[i].phase.cond].phase.Released?
  }

  lemma AsleepStep(s: State, e: Event, i: nat)
    requires Asleep(s, i)
    ensures Asleep(Step(s, e), i) && Step(s, e).rounds[i].phase.cond == s.rounds[i].phase.cond
  {
    hide KeyOf, Next;
    var c := s.rounds[i].phase.cond;
    if e.Advance? && e.id < |s.rounds| {
      OwnPhase(s, e.id, e.ok);
      if i != e.id {
        OtherRounds(s, e.id, e.ok, i);
      }
      if c != e.id {
        OtherRounds(s, e.id, e.ok, c);
      }
    }
  }

  lemma OwnPhase(s: State, id: nat, ok: bool)
    requires id < |s.rounds|
    ensures |Next(s, id, ok).rounds| >= |s.rounds|
    ensures var p, p' := s.rounds[id].phase, Next(s, id, ok).rounds[id].phase;
      && (p.Lost? ==> p' == Waiting(p.cond))
      && (p.Waiting? || p.Released? || p.Aborted? || p.Served? ==> p' == p)
  {
    hide KeyOf, WellFormed;
  }

  /** A goroutine that reaches its wait after the broadcast sleeps in every continuation. */
  lemma {:induction false} SleepsForever(s: State, more: seq<Event>, i: nat)
    requires Asleep(s, i)
    ensures Asleep(RunFrom(s, more), i) && RunFrom(s, more).rounds[i].phase.cond == s.rounds[i].phase.cond
  {
    hide Step;
    if more != [] {
      SleepsForever(s, more[..|more| - 1], i);
      AsleepStep(RunFrom(s, more[..|more| - 1]), more[|more| - 1], i);
    }
  }

  /** A waiting round and its condition's owner: it waits exactly until the broadcast. */
  predicate WaitsFor(s: State, i: nat, c: nat) {
    && i < |s.rounds| && c < |s.rounds|
    && (s.rounds[i].phase == Waiting(c) <==> !s.rounds[c].phase.Released?)
    && (|| s.rounds[i].phase.Waiting? || s.rounds[i].phase == Woken(c)
        || s.rounds[i].phase.Served? || s.rounds[i].phase.Panicked?)
    && (s.rounds[i].phase.Waiting? ==> s.rounds[i].phase.cond == c)
  }

  lemma WakingPhase(s: State, id: nat, ok: bool)
    requires id < |s.rounds|
    ensures |Next(s, id, ok).rounds| >= |s.rounds|
    ensures var p, p' := s.rounds[id].phase, Next(s, id, ok).rounds[id].phase;
      && (p.Woken? ==> p'.Served? || p'.Panicked?)
      && (p.Waiting? || p.Released? || p.Served? || p.Panicked? ==> p' == p)
      && (p'.Released? <==> p.Deleted? || p.Released?)
  {
    hide KeyOf, WellFormed;
  }

  lemma WaitsForStep(s: State, e: Event, i: nat, c: nat)
    requires WaitsFor(s, i, c)
    ensures WaitsFor(Step(s, e), i, c)
  {
    hide KeyOf, Next;
    if e.Advance? && e.id < |s.rounds| {
      WakingPhase(s, e.id, e.ok);
      if i != e.id {
        OtherRounds(s, e.id, e.ok, i);
      }
      if c != e.id {
        OtherRounds(s, e.id, e.ok, c);
      }
    }
  }

  /** A goroutine that waits before the broadcast waits exactly until it, in every continuation. */
  lemma {:induction false} WaitsUntilBroadcast(s: State, more: seq<Event>, i: nat, c: nat)
    requires i < |s.rounds| && c < |s.rounds| && s.rounds[i].phase == Waiting(c) && !s.rounds[c].phase.Released?
    ensures WaitsFor(RunFrom(s, more), i, c)
  {
    hide Step;
    if more != [] {
      WaitsUntilBroadcast(s, more[..|more| - 1], i, c);
      WaitsForStep(RunFrom(s, more[..|more| - 1]), more[|more| - 1], i, c);
    }
  }

  // ---- A failed dial ----

  lemma {:induction false} AbortedStays(s: State, more: seq<Event>, o: nat)
    requires o < |s.rounds| && s.rounds[o].phase.Aborted?
    ensures o < |RunFrom(s, more).rounds| && RunFrom(s, more).rounds[o].phase.Aborted?
    ensures RunFrom(s, more).rounds[o].errand == s.rounds[o].errand
  {
    hide KeyOf, Next;
    if more != [] {
      var pre, e := more[..|more| - 1], more[|more| - 1];
      AbortedStays(s, pre, o);
      var t := RunFrom(s, pre);
      if e.Advance? && e.id < |t.rounds| {
        if e.id == o {
          OwnPhase(t, o, e.ok);
          AbortedRests(t, o, e.ok);
        } else {
          OtherRounds(t, e.id, e.ok, o);
        }
      }
    }
  }

  lemma AbortedRests(s: State, id: nat, ok: bool)
    requires id < |s.rounds| && s.rounds[id].phase.Aborted?
    ensures Next(s, id, ok) == s
  {
    hide KeyOf;
  }

  /** After a failed dial the lock entry stays in every continuation: no other round of that
      source ever creates a connection, and none that waits for this one is woken. */
  lemma FailedDialLocksForever(es: seq<Event>, more: seq<Event>, o: nat, i: nat)
    requires Admissible(es + more) && o < |Run(es).rounds| && Run(es).rounds[o].phase.Aborted?
    ensures var s, k := Run(es + more), KeyOf(Run(es).rounds[o].errand);
      && k in s.locks && s.locks[k] == o
      && (i < |s.rounds| && i != o && KeyOf(s.rounds[i].errand) == k ==> !Owning(s.rounds[i].phase))
      && (i < |s.rounds| && Follower(s.rounds[i].phase) && s.rounds[i].phase.cond == o ==> !s.rounds[i].phase.Woken?)
  {
    hide KeyOf, Step;
    RunOn(Initial, es, more);
    AbortedStays(Run(es), more, o);
    InvariantHolds(es + more);
  }

  // ---- One statistics object ----

  /** A statistics round of this app that has not missed the object. */
  predicate Finds(s: State, i: nat, uid: nat) {
    i < |s.rounds| && s.rounds[i].errand == Conn(uid) && (s.rounds[i].phase.Looking? || s.rounds[i].phase.Served?)
  }

  /** One that has, and may still create another. */
  predicate MayReplace(s: State, i: nat, uid: nat) {
    i < |s.rounds| && s.rounds[i].errand == Conn(uid) && (s.rounds[i].phase.Missed? || s.rounds[i].phase.Won?)
  }

  lemma LookingFinds(s: State, id: nat, ok: bool)
    requires id < |s.rounds| && KeyOf(s.rounds[id].errand) in s.table
    ensures |Next(s, id, ok).rounds| >= |s.rounds| && Next(s, id, ok).rounds[id].errand == s.rounds[id].errand
    ensures var p, p' := s.rounds[id].phase, Next(s, id, ok).rounds[id].phase;
      && (p.Looking? || p.Served? ==> p'.Served?)
      && (p'.Missed? || p'.Won? ==> p.Missed?)
  {
    hide WellFormed;
  }

  lemma ErrandStays(s: State, e: Event, i: nat)
    requires i < |s.rounds|
    ensures i < |Step(s, e).rounds| && Step(s, e).rounds[i].errand == s.rounds[i].errand
  {
    hide KeyOf, WellFormed;
  }

  lemma FindsStep(s: State, e: Event, i: nat, uid: nat)
    requires Uid(uid) in s.table && Finds(s, i, uid)
    ensures Finds(Step(s, e), i, uid)
  {
    hide Next;
    if e.Advance? && e.id < |s.rounds| {
      if e.id == i {
        LookingFinds(s, i, e.ok);
      } else {
        OtherRounds(s, e.id, e.ok, i);
      }
    }
  }

  lemma MayReplaceStep(s: State, e: Event, i: nat, uid: nat)
    requires Uid(uid) in s.table && MayReplace(Step(s, e), i, uid)
    ensures MayReplace(s, i, uid)
  {
    hide Next;
    if e.Advance? && e.id < |s.rounds| {
      if i >= |s.rounds| {
        NewRounds(s, e.id, e.ok, i);
      } else if e.id == i {
        ErrandStays(s, e, i);
        LookingFinds(s, i, e.ok);
      } else {
        OtherRounds(s, e.id, e.ok, i);
      }
    }
  }

  lemma {:induction false} StaysPresent(es: seq<Event>, more: seq<Event>, uid: nat)
    requires NeverReset(more, uid) && Uid(uid) in Run(es).table
    ensures Uid(uid) in Run(es + more).table
  {
    hide Step;
    if more == [] {
      assert es + more == es;
    } else {
      var pre, e := more[..|more| - 1], more[|more| - 1];
      assert (es + more)[..|es + more| - 1] == es + pre;
      StaysPresent(es, pre, uid);
      TableKeeps(Run(es + pre), e, uid);
    }
  }

  /** Without a reset, once an app's statistics are stored, every round that has not missed them
      before, begun or not, gets them at its first load. */
  lemma {:induction false} FoundStays(es: seq<Event>, more: seq<Event>, i: nat, uid: nat)
    requires NeverReset(more, uid) && Uid(uid) in Run(es).table
    requires i < |Run(es).rounds| ==> Finds(Run(es), i, uid)
    requires i < |Run(es + more).rounds| && Run(es + more).rounds[i].errand == Conn(uid)
    ensures Finds(Run(es + more), i, uid)
  {
    hide Step, Finds;
    if more == [] {
      assert es + more == es;
    } else {
      var pre, e := more[..|more| - 1], more[|more| - 1];
      assert (es + more)[..|es + more| - 1] == es + pre;
      StaysPresent(es, pre, uid);
      if i < |Run(es + pre).rounds| {
        ErrandStays(Run(es + pre), e, i);
        FoundStays(es, pre, i, uid);
        FindsStep(Run(es + pre), e, i, uid);
      } else {
        BeginsLooking(Run(es + pre), e, i, uid);
      }
    }
  }

  lemma BeginsLooking(s: State, e: Event, i: nat, uid: nat)
    requires |s.rounds| <= i < |Step(s, e).rounds| && Step(s, e).rounds[i].errand == Conn(uid)
    ensures Finds(Step(s, e), i, uid)
  {
    hide KeyOf, Next;
    if e.Advance? {
      NewRounds(s, e.id, e.ok, i);
    }
  }

  /** And the object is replaced only by a round that had missed it before it was stored. */
  lemma {:induction false} OnlyTheMissedReplace(es: seq<Event>, more: seq<Event>, uid: nat)
    requires Admissible(es + more) && NeverReset(more, uid) && Uid(uid) in Run(es).table
    ensures Uid(uid) in Run(es + more).table
    ensures var j := Run(es + more).table[Uid(uid)];
      j != Run(es).table[Uid(uid)] ==> MayReplace(Run(es), j, uid)
  {
    hide Step, MayReplace, Run;
    if more == [] {
      assert es + more == es;
    } else {
      var pre, e := more[..|more| - 1], more[|more| - 1];
      RunEnds(es, more);
      StaysPresent(es, pre, uid);
      StaysPresent(es, more, uid);
      OnlyTheMissedReplace(es, pre, uid);
      InvariantHolds(es + pre);
      ReplacedBy(Run(es + pre), e, uid);
      var j := Run(es + more).table[Uid(uid)];
      if j != Run(es + pre).table[Uid(uid)] {
        CouldReplaceBefore(es, pre, j, uid);
      }
    }
  }

  lemma RunEnds(es: seq<Event>, more: seq<Event>)
    requires more != []
    ensures Run(es + more) == Step(Run(es + more[..|more| - 1]), more[|more| - 1])
    ensures Admissible(es + more) ==> Admissible(es + more[..|more| - 1])
  {
    hide Step;
    var pre := more[..|more| - 1];
    assert (es + more)[..|es + more| - 1] == es + pre;
    assert forall i :: 0 <= i < |es + pre| ==> (es + pre)[i] == (es + more)[i];
  }

  /** A step that changes the object of an app is the store of a round that won. */
  lemma ReplacedBy(s: State, e: Event, uid: nat)
    requires RoundsOk(s) && Uid(uid) in s.table && Uid(uid) in Step(s, e).table
    ensures var j := Step(s, e).table[Uid(uid)];
      j != s.table[Uid(uid)] ==> MayReplace(s, j, uid)
  {
    hide Next, RoundOk;
    if e.Advance? && e.id < |s.rounds| {
      TableAfter(s, e.id, e.ok);
      CountingIsPacket(s.rounds[e.id]);
    }
  }

  lemma CountingIsPacket(r: Round)
    requires RoundOk(r)
    ensures r.phase.Counting? ==> r.errand.Packet?
  {
  }

  lemma {:induction false} CouldReplaceBefore(es: seq<Event>, more: seq<Event>, j: nat, uid: nat)
    requires NeverReset(more, uid) && Uid(uid) in Run(es).table && MayReplace(Run(es + more), j, uid)
    ensures MayReplace(Run(es), j, uid)
  {
    hide Step, MayReplace, Run;
    if more == [] {
      assert es + more == es;
    } else {
      var pre := more[..|more| - 1];
      RunEnds(es, more);
      StaysPresent(es, pre, uid);
      MayReplaceStep(Run(es + pre), more[|more| - 1], j, uid);
      CouldReplaceBefore(es, pre, j, uid);
    }
  }

  /** Every such round does replace it, two steps after the lock is free. */
  lemma TheMissedReplace(s: State, i: nat, uid: nat, ok: bool)
    requires i < |s.rounds| && s.rounds[i].errand == Conn(uid) && s.rounds[i].phase.Missed? && Uid(uid) !in s.locks
    ensures var t := Step(Step(s, Advance(i, ok)), Advance(i, ok));
      Uid(uid) in t.table && t.table[Uid(uid)] == i && |t.rounds| == |s.rounds| && t.rounds[i].slot.Open?
  {
    var won := Step(s, Advance(i, ok));
    assert won.rounds[i] == s.rounds[i].(phase := Won);
  }

  // ---- When statistics are there ----

  /** This operation stores an app's statistics. */
  predicate Stores(s: State, e: Event, uid: nat) {
    e.Advance? && e.id < |s.rounds| && s.rounds[e.id].errand == Conn(uid) && s.rounds[e.id].phase.Won?
  }

  /** The last that happened to an app's statistics is a store. */
  ghost predicate StoredSinceReset(es: seq<Event>, uid: nat) {
    exists i :: 0 <= i < |es| && Stores(Run(es[..i]), es[i], uid) && forall j :: i < j < |es| ==> es[j] != Reset(uid)
  }

  lemma StoresExactly(s: State, id: nat, ok: bool, uid: nat)
    requires id < |s.rounds| && RoundOk(s.rounds[id])
    ensures Uid(uid) in Next(s, id, ok).table <==>
      Uid(uid) in s.table || (s.rounds[id].errand == Conn(uid) && s.rounds[id].phase.Won?)
  {
  }

  lemma TableStepExactly(s: State, e: Event, uid: nat)
    requires RoundsOk(s)
    ensures Uid(uid) in Step(s, e).table <==> e != Reset(uid) && (Uid(uid) in s.table || Stores(s, e, uid))
  {
    hide Next, RoundOk;
    if e.Advance? && e.id < |s.rounds| {
      StoresExactly(s, e.id, e.ok, uid);
    }
  }

  lemma StoredSinceLast(es: seq<Event>, uid: nat)
    requires es != []
    ensures var pre, e := es[..|es| - 1], es[|es| - 1];
      StoredSinceReset(es, uid) <==> e != Reset(uid) && (StoredSinceReset(pre, uid) || Stores(Run(pre), e, uid))
  {
    hide Run, Stores;
    var n := |es| - 1;
    var pre := es[..n];
    assert forall i :: 0 <= i <= n ==> pre[..i] == es[..i];
    if Stores(Run(pre), es[n], uid) && es[n] != Reset(uid) {
      assert Stores(Run(es[..n]), es[n], uid);
    }
    if StoredSinceReset(pre, uid) && es[n] != Reset(uid) {
      var i :| 0 <= i < n && Stores(Run(pre[..i]), pre[i], uid) && forall j :: i < j < n ==> pre[j] != Reset(uid);
      assert Stores(Run(es[..i]), es[i], uid);
    }
    if StoredSinceReset(es, uid) {
      var i :| 0 <= i < |es| && Stores(Run(es[..i]), es[i], uid) && forall j :: i < j < |es| ==> es[j] != Reset(uid);
      if i < n {
        assert Stores(Run(pre[..i]), pre[i], uid);
      } else {
        StoreIsNoReset(Run(pre), es[n], uid);
      }
    }
  }

  lemma StoreIsNoReset(s: State, e: Event, uid: nat)
    requires Stores(s, e, uid)
    ensures e != Reset(uid)
  {
  }

  lemma {:induction false} PresentExactly(es: seq<Event>, uid: nat)
    requires Admissible(es)
    ensures Uid(uid) in Run(es).table <==> StoredSinceReset(es, uid)
  {
    if es != [] {
      var pre, e := es[..|es| - 1], es[|es| - 1];
      PresentExactly(pre, uid);
      InvariantHolds(pre);
      hide Step, StoredSinceReset, RoundsOk, LocksOk, FollowersOk, TableOk, Stores;
      TableStepExactly(Run(pre), e, uid);
      StoredSinceLast(es, uid);
    }
  }

  /** A woken goroutine panics at its next step exactly if its app's statistics were reset
      after they were last stored. */
  lemma PanicsExactly(es: seq<Event>, id: nat, uid: nat, ok: bool)
    requires Admissible(es) && id < |Run(es).rounds|
    requires Run(es).rounds[id].errand == Conn(uid) && Run(es).rounds[id].phase.Woken?
    ensures id < |Step(Run(es), Advance(id, ok)).rounds|
    ensures Step(Run(es), Advance(id, ok)).rounds[id].phase.Panicked? <==> !StoredSinceReset(es, uid)
  {
    hide Run, StoredSinceReset;
    PresentExactly(es, uid);
  }

  // ---- Runs in which things go wrong ----

  function Stats(uid: nat, phase: Phase): Round {
    Round(Conn(uid), phase, if phase.Stored? || phase.Deleted? || phase.Released? then Open else Empty)
  }

  /** Two goroutines of one app miss the statistics, and the first takes the lock. */
  function BothMissed(uid: nat): seq<Event> {
    [] + [Spawn(Conn(uid))] + [Spawn(Conn(uid))] + [Advance(0, true)] + [Advance(1, true)] + [Advance(0, true)]
  }

  lemma BothMissedRun(uid: nat)
    ensures Run(BothMissed(uid)) == State(map[], map[Uid(uid) := 0], [Stats(uid, Won), Stats(uid, Missed)])
  {
    hide Run, RunFrom;
    assert Run([]) == Initial by { NothingRun(); }
    var a, b := Advance(0, true), Advance(1, true);
    var x := Spawn(Conn(uid));
    var states := [
      Initial,
      State(map[], map[], [Stats(uid, Looking)]),
      State(map[], map[], [Stats(uid, Looking), Stats(uid, Looking)]),
      State(map[], map[], [Stats(uid, Missed), Stats(uid, Looking)]),
      State(map[], map[], [Stats(uid, Missed), Stats(uid, Missed)]),
      State(map[], map[Uid(uid) := 0], [Stats(uid, Won), Stats(uid, Missed)])];
    After([], states[0], x, states[1]);
    After([] + [x], states[1], x, states[2]);
    After([] + [x] + [x], states[2], a, states[3]);
    After([] + [x] + [x] + [a], states[3], b, states[4]);
    After([] + [x] + [x] + [a] + [b], states[4], a, states[5]);
  }

  lemma NothingRun()
    ensures Run([]) == Initial
  {
  }

  /** A load miss that is acted on late makes a second object, which replaces the first. */
  lemma SecondObjectHappens(uid: nat)
    ensures var a, b := Advance(0, true), Advance(1, true);
      var s := Run(BothMissed(uid) + [a] + [a] + [b] + [b]);
      && |s.rounds| == 2 && s.rounds[0].slot == s.rounds[1].slot == Open
      && s.rounds[0].errand == s.rounds[1].errand == Conn(uid)
      && s.table == map[Uid(uid) := 1]
  {
    hide Run, RunFrom, BothMissed;
    BothMissedRun(uid);
    var a, b := Advance(0, true), Advance(1, true);
    var es := BothMissed(uid);
    var k := Uid(uid);
    var states := [
      State(map[], map[k := 0], [Stats(uid, Won), Stats(uid, Missed)]),
      State(map[k := 0], map[k := 0], [Stats(uid, Stored), Stats(uid, Missed)]),
      State(map[k := 0], map[], [Stats(uid, Deleted), Stats(uid, Missed)]),
      State(map[k := 0], map[k := 1], [Stats(uid, Deleted), Stats(uid, Won)]),
      State(map[k := 1], map[k := 1], [Stats(uid, Deleted), Stats(uid, Stored)])];
    After(es, states[0], a, states[1]);
    After(es + [a], states[1], a, states[2]);
    After(es + [a] + [a], states[2], b, states[3]);
    After(es + [a] + [a] + [b], states[3], b, states[4]);
  }

  /** A loser that is slow to wait misses the broadcast. */
  lemma LostWakeupHappens(uid: nat)
    ensures var a, b := Advance(0, true), Advance(1, true);
      Asleep(Run(BothMissed(uid) + [b] + [a] + [a] + [a]), 1)
  {
    hide Run, RunFrom, BothMissed;
    BothMissedRun(uid);
    var a, b := Advance(0, true), Advance(1, true);
    var es := BothMissed(uid);
    var k := Uid(uid);
    var states := [
      State(map[], map[k := 0], [Stats(uid, Won), Stats(uid, Missed)]),
      State(map[], map[k := 0], [Stats(uid, Won), Stats(uid, Lost(0))]),
      State(map[k := 0], map[k := 0], [Stats(uid, Stored), Stats(uid, Lost(0))]),
      State(map[k := 0], map[], [Stats(uid, Deleted), Stats(uid, Lost(0))]),
      State(map[k := 0], map[], [Stats(uid, Released), Stats(uid, Lost(0))])];
    After(es, states[0], b, states[1]);
    After(es + [b], states[1], a, states[2]);
    After(es + [b] + [a], states[2], a, states[3]);
    After(es + [b] + [a] + [a], states[3], a, states[4]);
  }

  lemma WaiterRun(uid: nat)
    ensures var a, b := Advance(0, true), Advance(1, true);
      Run(BothMissed(uid) + [b] + [b] + [a] + [a])
      == State(map[Uid(uid) := 0], map[], [Stats(uid, Deleted), Stats(uid, Waiting(0))])
  {
    hide Run, RunFrom, BothMissed, KeyOf;
    BothMissedRun(uid);
    var a, b := Advance(0, true), Advance(1, true);
    var es := BothMissed(uid);
    var k := Uid(uid);
    assert KeyOf(Conn(uid)) == k by { KeyOfConn(uid); }
    var states := [
      State(map[], map[k := 0], [Stats(uid, Won), Stats(uid, Missed)]),
      State(map[], map[k := 0], [Stats(uid, Won), Stats(uid, Lost(0))]),
      State(map[], map[k := 0], [Stats(uid, Won), Stats(uid, Waiting(0))]),
      State(map[k := 0], map[k := 0], [Stats(uid, Stored), Stats(uid, Waiting(0))]),
      State(map[k := 0], map[], [Stats(uid, Deleted), Stats(uid, Waiting(0))])];
    After(es, states[0], b, states[1]);
    After(es + [b], states[1], b, states[2]);
    After(es + [b] + [b], states[2], a, states[3]);
    After(es + [b] + [b] + [a], states[3], a, states[4]);
  }

  lemma KeyOfConn(uid: nat)
    ensures KeyOf(Conn(uid)) == Uid(uid)
  {
  }

  /** A reset between the broadcast and the second load makes the woken goroutine panic. */
  lemma PanicAfterReset(uid: nat)
    ensures var a, b := Advance(0, true), Advance(1, true);
      var s := Run(BothMissed(uid) + [b] + [b] + [a] + [a] + [a] + [Reset(uid)] + [b]);
      |s.rounds| == 2 && s.rounds[1].phase.Panicked?
  {
    hide Run, RunFrom, BothMissed, KeyOf;
    WaiterRun(uid);
    KeyOfConn(uid);
    var a, b := Advance(0, true), Advance(1, true);
    var es := BothMissed(uid) + [b] + [b] + [a] + [a];
    var k := Uid(uid);
    var states := [
      State(map[k := 0], map[], [Stats(uid, Deleted), Stats(uid, Waiting(0))]),
      State(map[k := 0], map[], [Stats(uid, Released), Stats(uid, Woken(0))]),
      State(map[], map[], [Stats(uid, Released), Stats(uid, Woken(0))]),
      State(map[], map[], [Stats(uid, Released), Stats(uid, Panicked)])];
    After(es, states[0], a, states[1]);
    After(es + [a], states[1], Reset(uid), states[2]);
    After(es + [a] + [Reset(uid)], states[2], b, states[3]);
  }
}
