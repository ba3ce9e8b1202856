/** Which stored object the tables of CreationLock hold: it is the last one stored for its key,
    and nothing removed the key since, be it the end of a read loop, of any connection of that
    key, or a reset. */
module TableHistory {
  import opened Bytes
  import opened LockKeys
  import opened CreationLock

  /** This operation puts the object of round i under a key. */
  predicate Stores(s: State, e: Event, k: Key, i: nat) {
    && e.Advance? && e.id == i && i < |s.rounds| && KeyOf(s.rounds[i].errand) == k
    && i < |Next(s, i, e.ok).rounds| && Next(s, i, e.ok).rounds[i].phase.Stored?
  }

  predicate StoresSome(s: State, e: Event, k: Key) {
    e.Advance? && Stores(s, e, k, e.id)
  }

  /** This one takes whatever is there away. */
  predicate Removes(s: State, e: Event, k: Key) {
    || (e.Close? && e.id < |s.rounds| && MayClose(s.rounds[e.id]) && KeyOf(s.rounds[e.id].errand) == k)
    || (e.Reset? && k == Uid(e.uid))
  }

  predicate Holds(s: State, k: Key, i: nat) {
    k in s.table && s.table[k] == i
  }

  lemma HoldsStep(s: State, e: Event, k: Key, i: nat)
    ensures Holds(Step(s, e), k, i) <==>
      Stores(s, e, k, i) || (Holds(s, k, i) && !StoresSome(s, e, k) && !Removes(s, e, k))
  {
    hide Next, KeyOf;
    if e.Advance? && e.id < |s.rounds| {
      TableAfter(s, e.id, e.ok);
    }
  }

  /** Neither a store of the key nor its removal comes after operation t. */
  ghost predicate Undisturbed(es: seq<Event>, t: nat, k: Key) {
    forall u :: t < u < |es| ==> !StoresSome(Run(es[..u]), es[u], k) && !Removes(Run(es[..u]), es[u], k)
  }

  ghost predicate StoredAt(es: seq<Event>, t: nat, k: Key, i: nat) {
    t < |es| && Stores(Run(es[..t]), es[t], k, i)
  }

  lemma StoredStep(es: seq<Event>, k: Key, i: nat)
    requires es != []
    ensures var pre, e := es[..|es| - 1], es[|es| - 1];
      (exists t: nat :: StoredAt(es, t, k, i) && Undisturbed(es, t, k)) <==>
        Stores(Run(pre), e, k, i)
        || ((exists t: nat :: StoredAt(pre, t, k, i) && Undisturbed(pre, t, k))
            && !StoresSome(Run(pre), e, k) && !Removes(Run(pre), e, k))
  {
    hide Run, Stores, StoresSome, Removes;
    var n := |es| - 1;
    var pre := es[..n];
    assert forall u :: 0 <= u <= n ==> pre[..u] == es[..u];
    if Stores(Run(pre), es[n], k, i) {
      assert StoredAt(es, n, k, i) && Undisturbed(es, n, k);
    }
    if t: nat :| StoredAt(pre, t, k, i) && Undisturbed(pre, t, k) {
      assert StoredAt(es, t, k, i);
      if !StoresSome(Run(pre), es[n], k) && !Removes(Run(pre), es[n], k) {
        assert Undisturbed(es, t, k);
      }
    }
    if t: nat :| StoredAt(es, t, k, i) && Undisturbed(es, t, k) {
      assert t < n ==> StoredAt(pre, t, k, i) && Undisturbed(pre, t, k);
    }
  }

  /** In every run a key holds an object exactly if it was stored under it and nothing disturbed
      the key since. */
  lemma {:induction false} HoldsExactly(es: seq<Event>, k: Key, i: nat)
    ensures Holds(Run(es), k, i) <==> exists t: nat :: StoredAt(es, t, k, i) && Undisturbed(es, t, k)
  {
    if es != [] {
      var pre, e := es[..|es| - 1], es[|es| - 1];
      HoldsExactly(pre, k, i);
      hide Step, Holds, Stores, StoresSome, Removes, StoredAt, Undisturbed;
      HoldsStep(Run(pre), e, k, i);
      StoredStep(es, k, i);
    }
  }

  // ---- A round stores once ----

  predicate Past(s: State, i: nat) {
    i < |s.rounds| && (s.rounds[i].phase.Stored? || s.rounds[i].phase.Deleted? || s.rounds[i].phase.Released?)
  }

  lemma PastOwn(s: State, id: nat, ok: bool)
    requires id < |s.rounds|
    ensures |Next(s, id, ok).rounds| >= |s.rounds|
    ensures Past(s, id) ==> Past(Next(s, id, ok), id) && !Next(s, id, ok).rounds[id].phase.Stored?
  {
    hide KeyOf, WellFormed;
  }

  lemma PastStep(s: State, e: Event, i: nat, k: Key)
    ensures Past(s, i) ==> Past(Step(s, e), i) && !Stores(s, e, k, i)
    ensures Stores(s, e, k, i) ==> Past(Step(s, e), i)
  {
    hide Next, KeyOf;
    if e.Advance? && e.id < |s.rounds| && i < |s.rounds| {
      PastOwn(s, e.id, e.ok);
      if i != e.id {
        OtherRounds(s, e.id, e.ok, i);
      }
    }
  }

  lemma {:induction false} PastSince(es: seq<Event>, t: nat, k: Key, i: nat)
    requires StoredAt(es, t, k, i)
    ensures Past(Run(es), i)
  {
    var pre, e := es[..|es| - 1], es[|es| - 1];
    hide Step, Past, Stores;
    PastStep(Run(pre), e, i, k);
    if t < |pre| {
      assert pre[..t] == es[..t];
      PastSince(pre, t, k, i);
    }
  }

  lemma StoresOnce(es: seq<Event>, t: nat, u: nat, k: Key, i: nat)
    requires StoredAt(es, t, k, i) && StoredAt(es, u, k, i)
    ensures t == u
  {
    hide Run, Past, Stores;
    if t < u {
      assert es[..u][..t] == es[..t];
      PastSince(es[..u], t, k, i);
      PastStep(Run(es[..u]), es[u], i, k);
    } else if u < t {
      assert es[..t][..u] == es[..u];
      PastSince(es[..t], u, k, i);
      PastStep(Run(es[..t]), es[t], i, k);
    }
  }

  /** So a connection, or statistics, once stored are in the table exactly as long as nothing was
      stored over them and no removal of their key came. */
  lemma HeldExactly(es: seq<Event>, t: nat, k: Key, i: nat)
    requires StoredAt(es, t, k, i)
    ensures Holds(Run(es), k, i) <==> Undisturbed(es, t, k)
  {
    hide Run, StoredAt, Undisturbed, Holds;
    HoldsExactly(es, k, i);
    if u: nat :| StoredAt(es, u, k, i) && Undisturbed(es, u, k) {
      StoresOnce(es, t, u, k, i);
    }
  }

  // ---- One connection's end removes another ----

  /** The end of a read loop takes away the connection that a late round stored over its own,
      although that one stays open. */
  lemma CloseRemovesAnother(s: State, a: nat, b: nat)
    requires a < |s.rounds| && b < |s.rounds| && a != b && MayClose(s.rounds[a])
    requires Holds(s, KeyOf(s.rounds[a].errand), b)
    ensures var t := Step(s, Close(a));
      && KeyOf(s.rounds[a].errand) !in t.table
      && |t.rounds| == |s.rounds| && t.rounds[b] == s.rounds[b]
  {
    hide KeyOf;
  }

  function Sender(source: string, port: nat, phase: Phase): Round {
    Round(Packet(source, port, None), phase, if phase.Stored? || phase.Deleted? || phase.Released? then Open else Empty)
  }

  /** Two goroutines of one source miss, and the first takes the lock. */
  function BothMissed(source: string, port: nat): seq<Event> {
    var x, a, b := Spawn(Packet(source, port, None)), Advance(0, true), Advance(1, true);
    [] + [x] + [x] + [a] + [b] + [a]
  }

  lemma BothMissedRun(source: string, port: nat)
    ensures Run(BothMissed(source, port)) ==
      State(map[], map[KeyOf(Packet(source, port, None)) := 0],
            [Sender(source, port, Won), Sender(source, port, Missed)])
  {
    assert Run([]) == Initial;
    hide Run, KeyOf;
    var x, a, b := Spawn(Packet(source, port, None)), Advance(0, true), Advance(1, true);
    var looking, missed := Sender(source, port, Looking), Sender(source, port, Missed);
    var states := [
      Initial,
      State(map[], map[], [looking]),
      State(map[], map[], [looking, looking]),
      State(map[], map[], [missed, looking]),
      State(map[], map[], [missed, missed]),
      State(map[], map[KeyOf(x.errand) := 0], [Sender(source, port, Won), missed])];
    After([], states[0], x, states[1]);
    After([] + [x], states[1], x, states[2]);
    After([] + [x] + [x], states[2], a, states[3]);
    After([] + [x] + [x] + [a], states[3], b, states[4]);
    After([] + [x] + [x] + [a] + [b], states[4], a, states[5]);
  }

  /** The first stores its connection and lets go. */
  function FirstStored(source: string, port: nat): seq<Event> {
    BothMissed(source, port) + [Advance(0, true)] + [Advance(0, true)] + [Advance(0, true)]
  }

  lemma FirstStoredRun(source: string, port: nat)
    ensures Run(FirstStored(source, port)) ==
      State(map[KeyOf(Packet(source, port, None)) := 0], map[],
            [Sender(source, port, Released), Sender(source, port, Missed)])
  {
    hide Run, KeyOf, BothMissed;
    BothMissedRun(source, port);
    var a, es := Advance(0, true), BothMissed(source, port);
    var k := KeyOf(Packet(source, port, None));
    var missed := Sender(source, port, Missed);
    var states := [
      State(map[], map[k := 0], [Sender(source, port, Won), missed]),
      State(map[k := 0], map[k := 0], [Sender(source, port, Stored), missed]),
      State(map[k := 0], map[], [Sender(source, port, Deleted), missed]),
      State(map[k := 0], map[], [Sender(source, port, Released), missed])];
    After(es, states[0], a, states[1]);
    After(es + [a], states[1], a, states[2]);
    After(es + [a] + [a], states[2], a, states[3]);
  }

  /** It happens for every source: the second connection is open and in no table. */
  lemma OrphanHappens(source: string, port: nat)
    ensures var b := Advance(1, true);
      var s := Run(FirstStored(source, port) + [b] + [b] + [Close(0)]);
      && s.table == map[] && |s.rounds| == 2
      && s.rounds[1] == Round(Packet(source, port, None), Stored, Open)
  {
    hide Run, KeyOf, FirstStored;
    FirstStoredRun(source, port);
    var b := Advance(1, true);
    var es := FirstStored(source, port);
    var k := KeyOf(Packet(source, port, None));
    var first := Sender(source, port, Released);
    var states := [
      State(map[k := 0], map[], [first, Sender(source, port, Missed)]),
      State(map[k := 0], map[k := 1], [first, Sender(source, port, Won)]),
      State(map[k := 1], map[k := 1], [first, Sender(source, port, Stored)]),
      State(map[], map[k := 1], [first.(slot := Closed), Sender(source, port, Stored)])];
    After(es, states[0], b, states[1]);
    After(es + [b], states[1], b, states[2]);
    After(es + [b] + [b], states[2], Close(0), states[3]);
  }
}
