/** The code that runs the creation protocol (tun.go): each method is one goroutine, statement by
    statement, with any operations of other goroutines between its own. From any reachable state
    of the tables, what it does is a continuation of the run made of its round's steps and the
    others' operations, so that what CreationLock proves about runs holds of the code. */
module CreationCode {
  import opened Bytes
  import opened LockKeys
  import opened CreationLock

  /** How a goroutine leaves its round: with the object or after looking for it, still waiting,
      given up, or panicking. */
  datatype Outcome = Got | Blocked | Failed | Crashed

  predicate NotBy(es: seq<Event>, id: nat) {
    forall i :: 0 <= i < |es| && es[i].Advance? ==> es[i].id != id
  }

  // ---- What other goroutines do: one list of operations for each gap ----

  predicate NoneBy(others: seq<seq<Event>>, id: nat) {
    forall k :: 0 <= k < |others| ==> NotBy(others[k], id)
  }

  predicate AllAdmissible(others: seq<seq<Event>>) {
    forall k :: 0 <= k < |others| ==> Admissible(others[k])
  }

  predicate NoneResets(others: seq<seq<Event>>, uid: nat) {
    forall k :: 0 <= k < |others| ==> NeverReset(others[k], uid)
  }

  /** Nobody else does anything in between. */
  predicate Silent(others: seq<seq<Event>>) {
    forall k :: 0 <= k < |others| ==> others[k] == []
  }

  predicate Among(e: Event, others: seq<seq<Event>>) {
    exists k :: 0 <= k < |others| && e in others[k]
  }

  /** `es` continues `before` with steps of some rounds and operations of others. */
  ghost predicate Continues(es: seq<Event>, before: seq<Event>, others: seq<seq<Event>>, ids: set<nat>) {
    && before <= es
    && forall i :: |before| <= i < |es| ==> Among(es[i], others) || (es[i].Advance? && es[i].id in ids)
  }

  lemma Starts(before: seq<Event>, others: seq<seq<Event>>, ids: set<nat>)
    ensures Continues(before, before, others, ids)
  {
  }

  lemma Grows(es: seq<Event>, before: seq<Event>, others: seq<seq<Event>>, ids: set<nat>, k: nat)
    requires Continues(es, before, others, ids) && k < |others|
    ensures Continues(es + others[k], before, others, ids)
  {
    var more := es + others[k];
    forall i | |before| <= i < |more|
      ensures Among(more[i], others) || (more[i].Advance? && more[i].id in ids)
    {
      if i < |es| {
        assert more[i] == es[i];
      } else {
        assert more[i] == others[k][i - |es|];
        assert more[i] in others[k];
      }
    }
  }

  lemma Steps(es: seq<Event>, before: seq<Event>, others: seq<seq<Event>>, ids: set<nat>, id: nat, ok: bool)
    requires Continues(es, before, others, ids) && id in ids
    ensures Continues(es + [Advance(id, ok)], before, others, ids)
  {
  }

  /** A continuation of a continuation, with some of the rounds and some of the lists. */
  lemma Joins(es: seq<Event>, middle: seq<Event>, before: seq<Event>, part: seq<seq<Event>>, some: set<nat>,
              others: seq<seq<Event>>, ids: set<nat>)
    requires Continues(middle, before, others, ids) && Continues(es, middle, part, some)
    requires (forall k :: 0 <= k < |part| ==> part[k] in others) && some <= ids
    ensures Continues(es, before, others, ids)
  {
    forall i | |before| <= i < |es|
      ensures Among(es[i], others) || (es[i].Advance? && es[i].id in ids)
    {
      if i < |middle| {
        assert es[i] == middle[i];
      } else if Among(es[i], part) {
        var k :| 0 <= k < |part| && es[i] in part[k];
        var m :| 0 <= m < |others| && others[m] == part[k];
        assert es[i] in others[m];
      }
    }
  }

  lemma KeepsAdmissible(es: seq<Event>, before: seq<Event>, others: seq<seq<Event>>, ids: set<nat>)
    requires Continues(es, before, others, ids)
    ensures before <= es
    ensures Admissible(before) && AllAdmissible(others) ==> Admissible(es)
    ensures forall uid :: NeverReset(before, uid) && NoneResets(others, uid) ==> NeverReset(es, uid)
  {
    if Admissible(before) && AllAdmissible(others) {
      forall i | 0 <= i < |es| && es[i].Spawn?
        ensures WellFormed(es[i].errand)
      {
        if i < |before| {
          assert es[i] == before[i];
        } else {
          var k :| 0 <= k < |others| && es[i] in others[k];
        }
      }
    }
    forall uid | NeverReset(before, uid) && NoneResets(others, uid)
      ensures NeverReset(es, uid)
    {
      forall i | 0 <= i < |es|
        ensures es[i] != Reset(uid)
      {
        if i < |before| {
          assert es[i] == before[i];
        } else if Among(es[i], others) {
          var k :| 0 <= k < |others| && es[i] in others[k];
        }
      }
    }
  }

  // ---- What a round can rely on meanwhile ----

  lemma {:induction false} OthersKeep(s: State, others: seq<Event>, id: nat)
    requires id < |s.rounds| && NotBy(others, id)
    ensures var s' := RunFrom(s, others);
      && id < |s'.rounds| && s'.rounds[id].errand == s.rounds[id].errand
      && (s.rounds[id].slot.Empty? ==> s'.rounds[id].slot.Empty?)
      && (s'.rounds[id].phase == s.rounds[id].phase
          || (s.rounds[id].phase.Waiting? && s'.rounds[id].phase == Woken(s.rounds[id].phase.cond)))
  {
    hide KeyOf, Next;
    if others != [] {
      var pre, e := others[..|others| - 1], others[|others| - 1];
      OthersKeep(s, pre, id);
      var t := RunFrom(s, pre);
      if e.Advance? && e.id < |t.rounds| {
        OtherRounds(t, e.id, e.ok, id);
      }
    }
  }

  /** A round that others did not advance is where it was. */
  lemma Unmoved(before: seq<Event>, es: seq<Event>, others: seq<seq<Event>>, other: nat, id: nat)
    requires Continues(es, before, others, {other}) && other != id && NoneBy(others, id)
    requires id < |Run(before).rounds| && !Run(before).rounds[id].phase.Waiting?
    ensures var r := Run(before).rounds[id];
      && id < |Run(es).rounds| && Run(es).rounds[id].errand == r.errand && Run(es).rounds[id].phase == r.phase
  {
    var more := es[|before|..];
    assert es == before + more;
    forall i | 0 <= i < |more| && more[i].Advance?
      ensures more[i].id != id
    {
      assert more[i] == es[|before| + i];
      if Among(more[i], others) {
        var k :| 0 <= k < |others| && more[i] in others[k];
      }
    }
    hide RunFrom;
    RunOn(Initial, before, more);
    OthersKeep(Run(before), more, id);
  }

  lemma {:induction false} FinishedStays(s: State, es: seq<Event>, id: nat)
    requires id < |s.rounds| && Finished(s.rounds[id].phase)
    ensures id < |RunFrom(s, es).rounds| && Finished(RunFrom(s, es).rounds[id].phase)
  {
    hide KeyOf, Next;
    if es != [] {
      var pre, e := es[..|es| - 1], es[|es| - 1];
      FinishedStays(s, pre, id);
      var t := RunFrom(s, pre);
      if e.Advance? && e.id < |t.rounds| {
        if e.id == id {
          FinishedRests(t, id, e.ok);
        } else {
          OtherRounds(t, e.id, e.ok, id);
        }
      }
    }
  }

  lemma FinishedRests(s: State, id: nat, ok: bool)
    requires id < |s.rounds| && Finished(s.rounds[id].phase)
    ensures Next(s, id, ok) == s
  {
    hide KeyOf;
  }

  lemma RunStep(es: seq<Event>, e: Event)
    ensures Run(es + [e]) == Step(Run(es), e)
  {
    RunThen(Initial, es, e);
  }

  class Tables {
    var table: map<Key, nat>
    var locks: map<Key, nat>
    var rounds: seq<Round>

    ghost function Now(): State
      reads this
    {
      State(table, locks, rounds)
    }

    constructor ()
      ensures Now() == Run([])
    {
      table, locks, rounds := map[], map[], [];
    }

    /** What other goroutines do between two operations of one. */
    method Meanwhile(others: seq<Event>, id: nat, ghost es: seq<Event>)
      requires id < |rounds| && NotBy(others, id)
      requires Now() == Run(es)
      modifies this
      ensures Now() == Run(es + others) == RunFrom(old(Now()), others)
      ensures others == [] ==> Now() == old(Now())
      ensures id < |rounds| && rounds[id].errand == old(rounds[id].errand)
      ensures old(rounds[id].slot.Empty?) ==> rounds[id].slot.Empty?
      ensures rounds[id].phase == old(rounds[id].phase)
           || (old(rounds[id].phase.Waiting?) && rounds[id].phase == Woken(old(rounds[id].phase.cond)))
    {
      hide Step;
      OthersKeep(Now(), others, id);
      RunOn(Initial, es, others);
      var i := 0;
      assert others[..0] == [];
      while i < |others|
        invariant i <= |others|
        invariant Now() == RunFrom(old(Now()), others[..i])
      {
        assert others[..i + 1][..i] == others[..i];
        var s := Step(State(table, locks, rounds), others[i]);
        table, locks, rounds := s.table, s.locks, s.rounds;
        i := i + 1;
      }
      assert others[..|others|] == others;
    }

    /** Notes how far a round has come. */
    method Reach(id: nat, phase: Phase)
      requires id < |rounds|
      modifies this`rounds
      ensures rounds == old(rounds)[id := old(rounds)[id].(phase := phase)]
    {
      rounds := rounds[id := rounds[id].(phase := phase)];
    }

    /** `cond.Broadcast()`. */
    method Broadcast(cond: nat)
      modifies this`rounds
      ensures rounds == Wake(old(rounds), cond)
    {
      var i := 0;
      var woken := [];
      while i < |rounds|
        invariant i <= |rounds| && |woken| == i
        invariant forall k :: 0 <= k < i ==> woken[k] == Wake(rounds, cond)[k]
      {
        woken := woken + [if rounds[i].phase == Waiting(cond) then rounds[i].(phase := Woken(cond)) else rounds[i]];
        i := i + 1;
      }
      rounds := woken;
    }

    /** Load, then `LoadOrStore` on a miss: the part that all three callers begin with. */
    method Enter(id: nat, others: seq<seq<Event>>, ghost before: seq<Event>) returns (ghost es: seq<Event>)
      requires id < |rounds| && rounds[id].phase.Looking? && rounds[id].slot.Empty?
      requires |others| == 2 && NoneBy(others, id)
      requires Now() == Run(before)
      modifies this
      ensures Now() == Run(es) && Continues(es, before, others, {id})
      ensures id < |rounds| && rounds[id].errand == old(rounds[id].errand) && rounds[id].slot.Empty?
      ensures match rounds[id].phase
        case Served => KeyOf(rounds[id].errand) in table
        case Lost(cond) => KeyOf(rounds[id].errand) in locks && locks[KeyOf(rounds[id].errand)] == cond
        case Won => KeyOf(rounds[id].errand) in locks && locks[KeyOf(rounds[id].errand)] == id
        case _ => false
      ensures Silent(others) ==>
        var key := KeyOf(old(rounds[id].errand));
        && table == old(table)
        && (rounds[id].phase.Served? <==> key in old(table))
        && (rounds[id].phase.Won? <==> key !in old(table) && key !in old(locks))
        && locks == if rounds[id].phase.Won? then old(locks)[key := id] else old(locks)
    {
      hide Run, KeyOf, NotBy, Continues;
      var key := KeyOf(rounds[id].errand);
      Starts(before, others, {id});
      Grows(before, before, others, {id}, 0);
      Meanwhile(others[0], id, before);
      es := before + others[0];
      RunStep(es, Advance(id, true));
      Steps(es, before, others, {id}, id, true);
      es := es + [Advance(id, true)];
      if key in table {
        Reach(id, Served);
        return;
      }
      Reach(id, Missed);

      Grows(es, before, others, {id}, 1);
      Meanwhile(others[1], id, es);
      es := es + others[1];
      RunStep(es, Advance(id, true));
      Steps(es, before, others, {id}, id, true);
      es := es + [Advance(id, true)];
      if key in locks {
        Reach(id, Lost(locks[key]));
      } else {
        locks := locks[key := id];
        Reach(id, Won);
      }
    }

    /** `cond.Wait()` and the second load: for statistics it panics exactly when they are missing. */
    method Await(id: nat, others: seq<seq<Event>>, ghost before: seq<Event>)
        returns (outcome: Outcome, ghost es: seq<Event>)
      requires id < |rounds| && rounds[id].phase.Lost? && rounds[id].slot.Empty?
      requires |others| == 3 && NoneBy(others, id)
      requires Now() == Run(before)
      modifies this
      ensures Now() == Run(es) && Continues(es, before, others, {id})
      ensures id < |rounds| && rounds[id].errand == old(rounds[id].errand)
      ensures match outcome
        case Got => rounds[id].phase.Served? && (rounds[id].errand.Conn? ==> KeyOf(rounds[id].errand) in table)
        case Blocked => rounds[id].phase == Waiting(old(rounds[id].phase.cond))
        case Crashed => rounds[id].phase.Panicked? && rounds[id].errand.Conn? && KeyOf(rounds[id].errand) !in table
        case Failed => false
      ensures Silent(others) ==> outcome == Blocked && table == old(table) && locks == old(locks)
    {
      hide Run, KeyOf, NotBy, Continues;
      var key := KeyOf(rounds[id].errand);
      Starts(before, others, {id});
      Grows(before, before, others, {id}, 0);
      Meanwhile(others[0], id, before);
      es := before + others[0];
      RunStep(es, Advance(id, true));
      Steps(es, before, others, {id}, id, true);
      es := es + [Advance(id, true)];
      Reach(id, Waiting(rounds[id].phase.cond));

      Grows(es, before, others, {id}, 1);
      Meanwhile(others[1], id, es);
      es := es + others[1];
      if rounds[id].phase.Waiting? {
        return Blocked, es;
      }

      Grows(es, before, others, {id}, 2);
      Meanwhile(others[2], id, es);
      es := es + others[2];
      RunStep(es, Advance(id, true));
      Steps(es, before, others, {id}, id, true);
      es := es + [Advance(id, true)];
      if rounds[id].errand.Conn? && key !in table {
        Reach(id, Panicked);
        return Crashed, es;
      }
      Reach(id, Served);
      outcome := Got;
    }

    /** Delete the lock entry, then broadcast: the part that every creator ends with. */
    method Release(id: nat, others: seq<seq<Event>>, ghost before: seq<Event>) returns (ghost es: seq<Event>)
      requires id < |rounds| && (rounds[id].phase.Stored? || rounds[id].phase.Unrouted?)
      requires |others| == 2 && NoneBy(others, id)
      requires Now() == Run(before)
      modifies this
      ensures Now() == Run(es) && Continues(es, before, others, {id})
      ensures id < |rounds| && rounds[id].errand == old(rounds[id].errand) && rounds[id].phase.Released?
      ensures Silent(others) ==> table == old(table) && locks == old(locks) - {KeyOf(old(rounds[id].errand))}
    {
      hide Run, KeyOf, NotBy, Continues;
      var key := KeyOf(rounds[id].errand);
      Starts(before, others, {id});
      Grows(before, before, others, {id}, 0);
      Meanwhile(others[0], id, before);
      es := before + others[0];
      RunStep(es, Advance(id, true));
      Steps(es, before, others, {id}, id, true);
      es := es + [Advance(id, true)];
      locks := locks - {key};
      Reach(id, Deleted);

      Grows(es, before, others, {id}, 1);
      Meanwhile(others[1], id, es);
      es := es + others[1];
      RunStep(es, Advance(id, true));
      Steps(es, before, others, {id}, id, true);
      es := es + [Advance(id, true)];
      Broadcast(id);
      Reach(id, Released);
    }

    /** The store of a created object. */
    method Put(id: nat)
      requires id < |rounds|
      modifies this
      ensures Now() == Store(old(Now()), id)
      ensures table == old(table)[KeyOf(old(rounds[id].errand)) := id] && locks == old(locks)
    {
      table := table[KeyOf(rounds[id].errand) := id];
      rounds := rounds[id := rounds[id].(phase := Stored, slot := Open)];
    }

    /** Gets the statistics object of an app for a goroutine. Unless the app's statistics are
        reset it never panics. */
    method GetStats(id: nat, uid: nat, others: seq<seq<Event>>, ghost before: seq<Event>)
        returns (outcome: Outcome, ghost es: seq<Event>)
      requires id < |rounds| && rounds[id] == Round(Conn(uid), Looking, Empty)
      requires |others| == 5 && NoneBy(others, id)
      requires Now() == Run(before)
      modifies this
      ensures Now() == Run(es) && Continues(es, before, others, {id})
      ensures id < |rounds| && rounds[id].errand == Conn(uid)
      ensures match outcome
        case Got => Finished(rounds[id].phase)
        case Blocked => rounds[id].phase.Waiting?
        case Crashed => rounds[id].phase.Panicked? && Uid(uid) !in table
        case Failed => false
      ensures Admissible(before) && AllAdmissible(others) && NeverReset(before, uid) && NoneResets(others, uid)
        ==> outcome != Crashed
      ensures Silent(others) ==>
        && outcome == (if Uid(uid) in old(table) || Uid(uid) !in old(locks) then Got else Blocked)
        && table == (if Uid(uid) in old(table) || outcome == Blocked then old(table) else old(table)[Uid(uid) := id])
        && locks == old(locks)
    {
      hide Run, NotBy, Continues, Calm, StatsKept, Admissible, NeverReset;
      es := Enter(id, others[..2], before);
      Starts(before, others, {id});
      Joins(es, before, before, others[..2], {id}, others, {id});
      if rounds[id].phase.Served? {
        return Got, es;
      }
      ghost var entered := es;
      if rounds[id].phase.Lost? {
        outcome, es := Await(id, others[2..], es);
        Joins(es, entered, before, others[2..], {id}, others, {id});
        NeverCrashes(es, before, others, id, uid);
        return;
      }
      Grows(es, before, others, {id}, 2);
      Meanwhile(others[2], id, es);
      es := es + others[2];
      RunStep(es, Advance(id, true));
      Steps(es, before, others, {id}, id, true);
      es := es + [Advance(id, true)];
      Put(id);
      ghost var stored := es;
      es := Release(id, others[3..], es);
      Joins(es, stored, before, others[3..], {id}, others, {id});
      outcome := Got;
    }

    /** A goroutine begins its round. */
    method Begin(errand: Errand, ghost history: seq<Event>) returns (id: nat)
      requires Now() == Run(history)
      modifies this
      ensures id == old(|rounds|) < |rounds| && rounds[id] == Round(errand, Looking, Empty)
      ensures Now() == Run(history + [Spawn(errand)])
      ensures table == old(table) && locks == old(locks)
    {
      hide Run;
      id := |rounds|;
      RunStep(history, Spawn(errand));
      rounds := rounds + [Round(errand, Looking, Empty)];
    }

    /** A TCP connection, up to its statistics object. */
    method NewConnection(uid: nat, others: seq<seq<Event>>, ghost history: seq<Event>)
        returns (outcome: Outcome, id: nat, ghost es: seq<Event>)
      requires |others| == 5 && NoneBy(others, |rounds|)
      requires Now() == Run(history)
      modifies this
      ensures Now() == Run(es) && Continues(es, history + [Spawn(Conn(uid))], others, {id})
      ensures id == old(|rounds|) < |rounds| && rounds[id].errand == Conn(uid)
      ensures match outcome
        case Got => Finished(rounds[id].phase)
        case Blocked => rounds[id].phase.Waiting?
        case Crashed => rounds[id].phase.Panicked? && Uid(uid) !in table
        case Failed => false
      ensures Admissible(history) && AllAdmissible(others) ==> Admissible(es)
      ensures forall u :: NeverReset(history, u) && NoneResets(others, u) ==> NeverReset(es, u)
      ensures Admissible(history) && AllAdmissible(others) && NeverReset(history, uid) && NoneResets(others, uid)
        ==> outcome != Crashed
      ensures Silent(others) ==>
        && outcome == (if Uid(uid) in old(table) || Uid(uid) !in old(locks) then Got else Blocked)
        && table == (if Uid(uid) in old(table) || outcome == Blocked then old(table) else old(table)[Uid(uid) := id])
        && locks == old(locks)
    {
      hide Run, NotBy, Continues;
      id := Begin(Conn(uid), history);
      ghost var begun := history + [Spawn(Conn(uid))];
      outcome, es := GetStats(id, uid, others, begun);
      KeepsAdmissible(es, begun, others, {id});
    }

    /** A UDP goroutine that has dialled: the statistics of its app, in a round of their own, then
        the store of the connection and the release. */
    method StoreCounted(id: nat, stats: nat, uid: nat, inner: seq<seq<Event>>, last: seq<seq<Event>>,
                        ghost before: seq<Event>)
        returns (outcome: Outcome, ghost es: seq<Event>)
      requires id < |rounds| && rounds[id].phase == Counting(stats) && rounds[id].errand.Packet?
      requires stats < |rounds| && rounds[stats] == Round(Conn(uid), Looking, Empty)
      requires |inner| == 5 && NoneBy(inner, stats) && NoneBy(inner, id)
      requires |last| == 3 && NoneBy(last, id)
      requires Now() == Run(before)
      modifies this
      ensures Now() == Run(es) && Continues(es, before, inner + last, {id, stats})
      ensures id < |rounds| && rounds[id].errand == old(rounds[id].errand)
      ensures match outcome
        case Got => rounds[id].phase.Released?
        case Blocked =>
          rounds[id].phase == Counting(stats) && Inner(id, stats, Some(uid)) && rounds[stats].phase.Waiting?
        case Crashed =>
          rounds[id].phase == Counting(stats) && Inner(id, stats, Some(uid)) && rounds[stats].phase.Panicked?
        case Failed => false
      ensures Admissible(before) && AllAdmissible(inner) && AllAdmissible(last) ==> Admissible(es)
      ensures forall u :: NeverReset(before, u) && NoneResets(inner, u) && NoneResets(last, u) ==> NeverReset(es, u)
      ensures Admissible(before) && AllAdmissible(inner) && NeverReset(before, uid) && NoneResets(inner, uid)
        ==> outcome != Crashed
      ensures Silent(inner) && Silent(last) ==>
        var key := KeyOf(old(rounds[id].errand));
        && outcome == (if Uid(uid) in old(table) || Uid(uid) !in old(locks) then Got else Blocked)
        && table == (if outcome == Blocked then old(table)
                     else if Uid(uid) in old(table) then old(table)[key := id]
                     else old(table)[Uid(uid) := stats][key := id])
        && locks == if outcome == Blocked then old(locks) else old(locks) - {key}
    {
      hide Run, NotBy, KeyOf, Continues, Admissible, NeverReset;
      ghost var errand := rounds[id].errand;
      outcome, es := GetStats(stats, uid, inner, before);
      Unmoved(before, es, inner, stats, id);
      KeepsAdmissible(es, before, inner, {stats});
      Starts(before, inner + last, {id, stats});
      Joins(es, before, before, inner, {stats}, inner + last, {id, stats});
      if outcome != Got {
        return;
      }
      ghost var counted := es;
      FinishedStays(Now(), last[0], stats);
      Starts(es, last, {id});
      Grows(es, es, last, {id}, 0);
      Meanwhile(last[0], id, es);
      es := es + last[0];
      RunStep(es, Advance(id, true));
      Steps(es, counted, last, {id}, id, true);
      es := es + [Advance(id, true)];
      Put(id);
      ghost var stored := es;
      es := Release(id, last[1..], es);
      Joins(es, stored, counted, last[1..], {id}, last, {id});
      KeepsAdmissible(es, counted, last, {id});
      Joins(es, counted, before, last, {id}, inner + last, {id, stats});
    }

    /** The round for an app's statistics inside another. */
    ghost predicate Inner(id: nat, stats: nat, app: Option<nat>)
      reads this
    {
      stats != id && app.Some? && stats < |rounds| && rounds[stats].errand == Conn(app.value)
    }

    ghost predicate Tame(source: string, history: seq<Event>, others: seq<seq<Event>>, inner: nat -> seq<seq<Event>>) {
      IpText(source) && Admissible(history) && AllAdmissible(others) && forall i :: AllAdmissible(inner(i))
    }

    ghost predicate Spared(u: nat, history: seq<Event>, others: seq<seq<Event>>, inner: nat -> seq<seq<Event>>) {
      NeverReset(history, u) && NoneResets(others, u) && forall i :: NoneResets(inner(i), u)
    }

    /** What a packet does when nobody else does anything: it finds the connection of its source,
        waits if someone is dialling it, or dials and stores it, with the statistics of its app if
        these are not there; a lock entry stays only after a failed dial, or while the packet waits
        for another's statistics. */
    ghost predicate AlonePacket(source: string, app: Option<nat>, dialled: bool, outcome: Outcome, id: nat, stats: nat,
                                table: map<Key, nat>, locks: map<Key, nat>,
                                table': map<Key, nat>, locks': map<Key, nat>)
    {
      var key := Text(source);
      if key in table then outcome == Got && table' == table && locks' == locks
      else if key in locks then outcome == Blocked && table' == table && locks' == locks
      else if !dialled then outcome == Failed && table' == table && locks' == locks[key := id]
      else if app.None? || Uid(app.value) in table then
        outcome == Got && table' == table[key := id] && locks' == locks
      else if Uid(app.value) in locks then outcome == Blocked && table' == table && locks' == locks[key := id]
      else outcome == Got && table' == table[Uid(app.value) := stats][key := id] && locks' == locks
    }

    /** A UDP packet, up to the broadcast: it finds a connection, waits for one, or dials one,
        gets the statistics, stores the connection and lets the waiting go on. Unless its app's
        statistics are reset it never panics. */
    method NewPacket(source: string, port: nat, app: Option<nat>, dialled: bool, others: seq<seq<Event>>,
                     inner: nat -> seq<seq<Event>>, last: seq<seq<Event>>, ghost history: seq<Event>)
        returns (outcome: Outcome, id: nat, stats: nat, ghost es: seq<Event>)
      requires |others| == 5 && NoneBy(others, |rounds|)
      requires forall i :: |inner(i)| == 5 && NoneBy(inner(i), i) && NoneBy(inner(i), |rounds|)
      requires |last| == 3 && NoneBy(last, |rounds|)
      requires Now() == Run(history)
      modifies this
      ensures Now() == Run(es)
      ensures Continues(es, history + [Spawn(Packet(source, port, app))], others + inner(stats) + last, {id, stats})
      ensures stats != id ==> app.Some?
      ensures id == old(|rounds|) < |rounds| && rounds[id].errand == Packet(source, port, app)
      ensures match outcome
        case Got => Finished(rounds[id].phase) && (rounds[id].phase.Released? ==> dialled)
        case Blocked =>
          || rounds[id].phase.Waiting?
          || (rounds[id].phase == Counting(stats) && Inner(id, stats, app) && rounds[stats].phase.Waiting?)
        case Failed => rounds[id].phase.Aborted? && !dialled
        case Crashed =>
          rounds[id].phase == Counting(stats) && Inner(id, stats, app) && rounds[stats].phase.Panicked?
      ensures Tame(source, history, others, inner) && AllAdmissible(last) ==> Admissible(es)
      ensures forall u :: Spared(u, history, others, inner) && NoneResets(last, u) ==> NeverReset(es, u)
      ensures Tame(source, history, others, inner) && app.Some? && Spared(app.value, history, others, inner)
        ==> outcome != Crashed
      ensures Silent(others) && (forall i :: Silent(inner(i))) && Silent(last) ==>
        AlonePacket(source + ":" + Decimal(port), app, dialled, outcome, id, stats,
                    old(table), old(locks), table, locks)
    {
      hide Run, NotBy, KeyOf, Continues, NoneBy, AllAdmissible, NoneResets;
      PacketKey(source, port, app);
      id := Begin(Packet(source, port, app), history);
      stats := id;
      ghost var begun := history + [Spawn(Packet(source, port, app))];
      outcome, es := Dial(id, dialled, others, begun);
      KeepsAdmissible(es, begun, others, {id});
      if outcome != Got || !rounds[id].phase.Won? {
        Starts(begun, others + inner(stats) + last, {id, stats});
        Joins(es, begun, begun, others, {id}, others + inner(stats) + last, {id, stats});
        return;
      }
      ghost var dialling := es;
      outcome, stats, es := Create(id, app, inner, last, es);
      Starts(begun, others + inner(stats) + last, {id, stats});
      Joins(dialling, begun, begun, others, {id}, others + inner(stats) + last, {id, stats});
      Joins(es, dialling, begun, inner(stats) + last, {id, stats}, others + inner(stats) + last, {id, stats});
    }

    /** The second half: the statistics, if the packet has an app, the store and the release. */
    method Create(id: nat, app: Option<nat>, inner: nat -> seq<seq<Event>>, last: seq<seq<Event>>,
                  ghost before: seq<Event>)
        returns (outcome: Outcome, stats: nat, ghost es: seq<Event>)
      requires id < |rounds| && rounds[id].phase.Won? && rounds[id].slot.Empty?
      requires rounds[id].errand.Packet? && rounds[id].errand.app == app
      requires forall i :: |inner(i)| == 5 && NoneBy(inner(i), i) && NoneBy(inner(i), id)
      requires |last| == 3 && NoneBy(last, id)
      requires Now() == Run(before)
      modifies this
      ensures Now() == Run(es) && Continues(es, before, inner(stats) + last, {id, stats})
      ensures stats != id ==> app.Some?
      ensures id < |rounds| && rounds[id].errand == old(rounds[id].errand)
      ensures match outcome
        case Got => rounds[id].phase.Released?
        case Blocked => rounds[id].phase == Counting(stats) && Inner(id, stats, app) && rounds[stats].phase.Waiting?
        case Failed => false
        case Crashed => rounds[id].phase == Counting(stats) && Inner(id, stats, app) && rounds[stats].phase.Panicked?
      ensures Admissible(before) && AllAdmissible(inner(stats)) && AllAdmissible(last) ==> Admissible(es)
      ensures forall u :: NeverReset(before, u) && NoneResets(inner(stats), u) && NoneResets(last, u) ==>
        NeverReset(es, u)
      ensures app.Some? && Admissible(before) && AllAdmissible(inner(stats)) ==>
        NeverReset(before, app.value) && NoneResets(inner(stats), app.value) ==> outcome != Crashed
      ensures Silent(inner(stats)) && Silent(last) ==>
        var key := KeyOf(old(rounds[id].errand));
        if app.None? || Uid(app.value) in old(table) then
          outcome == Got && table == old(table)[key := id] && locks == old(locks) - {key}
        else if Uid(app.value) in old(locks) then outcome == Blocked && table == old(table) && locks == old(locks)
        else
          outcome == Got && table == old(table)[Uid(app.value) := stats][key := id] && locks == old(locks) - {key}
    {
      hide Run, NotBy, KeyOf, Continues, NoneBy, AllAdmissible, NoneResets, Admissible, NeverReset;
      stats := if app.None? then id else |rounds|;
      ghost var all, ids := inner(stats) + last, {id, stats};
      Starts(before, all, ids);
      RunStep(before, Advance(id, true));
      Steps(before, before, all, ids, id, true);
      es := before + [Advance(id, true)];
      ghost var dialling := es;
      AdvanceKeeps(before, id);
      if app.None? {
        Put(id);
        TailOf(last, id);
        es := Release(id, last[1..], es);
        KeepsAdmissible(es, dialling, last[1..], {id});
        Joins(es, dialling, before, last[1..], {id}, all, ids);
        outcome := Got;
      } else {
        Reach(id, Counting(stats));
        rounds := rounds + [Round(Conn(app.value), Looking, Empty)];
        outcome, es := StoreCounted(id, stats, app.value, inner(stats), last, es);
        Joins(es, dialling, before, inner(stats) + last, ids, all, ids);
      }
    }

    /** The first half: nobody has a connection for this packet, and it is dialled. */
    method Dial(id: nat, dialled: bool, others: seq<seq<Event>>, ghost before: seq<Event>)
        returns (outcome: Outcome, ghost es: seq<Event>)
      requires id < |rounds| && rounds[id].phase.Looking? && rounds[id].slot.Empty? && rounds[id].errand.Packet?
      requires |others| == 5 && NoneBy(others, id)
      requires Now() == Run(before)
      modifies this
      ensures Now() == Run(es) && Continues(es, before, others, {id})
      ensures id < |rounds| && rounds[id].errand == old(rounds[id].errand)
      ensures match outcome
        case Got => rounds[id].phase.Served? || (rounds[id].phase.Won? && dialled && rounds[id].slot.Empty?)
        case Blocked => rounds[id].phase.Waiting?
        case Failed => rounds[id].phase.Aborted? && !dialled
        case Crashed => false
      ensures Silent(others) ==>
        var key := KeyOf(old(rounds[id].errand));
        && table == old(table)
        && outcome == (if key in old(table) then Got else if key in old(locks) then Blocked
                       else if dialled then Got else Failed)
        && (outcome == Got ==> (rounds[id].phase.Won? <==> key !in old(table)))
        && locks == if key in old(table) || key in old(locks) then old(locks) else old(locks)[key := id]
    {
      hide Run, NotBy, KeyOf, Continues;
      es := Enter(id, others[..2], before);
      Starts(before, others, {id});
      Joins(es, before, before, others[..2], {id}, others, {id});
      if rounds[id].phase.Served? {
        return Got, es;
      }
      if rounds[id].phase.Lost? {
        ghost var entered := es;
        outcome, es := Await(id, others[2..], es);
        Joins(es, entered, before, others[2..], {id}, others, {id});
        return;
      }
      Grows(es, before, others, {id}, 2);
      Meanwhile(others[2], id, es);
      es := es + others[2];
      if !dialled {
        RunStep(es, Advance(id, false));
        Steps(es, before, others, {id}, id, false);
        es := es + [Advance(id, false)];
        Reach(id, Aborted);
        return Failed, es;
      }
      outcome := Got;
    }

    /** A ping: `taken` is false only when no handler was found for it, and the lock entry goes
        either way. */
    method NewPingPacket(source: string, destination: string, routed: bool, others: seq<seq<Event>>,
                         ghost history: seq<Event>)
        returns (outcome: Outcome, taken: bool, id: nat, ghost es: seq<Event>)
      requires |others| == 5 && NoneBy(others, |rounds|)
      requires Now() == Run(history)
      modifies this
      ensures Now() == Run(es) && Continues(es, history + [Spawn(Ping(source, destination))], others, {id})
      ensures id == old(|rounds|) < |rounds| && rounds[id].errand == Ping(source, destination)
      ensures match outcome
        case Got =>
          && Finished(rounds[id].phase)
          && (rounds[id].phase.Released? ==> taken == routed)
          && (!taken ==> rounds[id].phase.Released?)
        case Blocked => rounds[id].phase.Waiting?
        case Failed => false
        case Crashed => false
      ensures IpText(source) && IpText(destination) && Admissible(history) && AllAdmissible(others) ==> Admissible(es)
      ensures forall u :: NeverReset(history, u) && NoneResets(others, u) ==> NeverReset(es, u)
      ensures Silent(others) ==>
        var key := Text(source + "-" + destination);
        && outcome == (if key in old(table) || key !in old(locks) then Got else Blocked)
        && taken == (key in old(table) || key in old(locks) || routed)
        && table == (if key in old(table) || key in old(locks) || !routed then old(table) else old(table)[key := id])
        && locks == old(locks)
    {
      hide Run, NotBy, KeyOf, Continues;
      PingKey(source, destination);
      id := Begin(Ping(source, destination), history);
      ghost var begun := history + [Spawn(Ping(source, destination))];
      taken := true;
      es := Enter(id, others[..2], begun);
      Starts(begun, others, {id});
      Joins(es, begun, begun, others[..2], {id}, others, {id});
      if rounds[id].phase.Served? {
        KeepsAdmissible(es, begun, others, {id});
        return Got, taken, id, es;
      }
      if rounds[id].phase.Lost? {
        ghost var entered := es;
        outcome, es := Await(id, others[2..], es);
        Joins(es, entered, begun, others[2..], {id}, others, {id});
        KeepsAdmissible(es, begun, others, {id});
        return;
      }
      ghost var entered := es;
      taken, es := Route(id, routed, others[2..], es);
      Joins(es, entered, begun, others[2..], {id}, others, {id});
      KeepsAdmissible(es, begun, others, {id});
      outcome := Got;
    }

    /** The second half: a connection is stored if there is a handler. */
    method Route(id: nat, routed: bool, others: seq<seq<Event>>, ghost before: seq<Event>)
        returns (taken: bool, ghost es: seq<Event>)
      requires id < |rounds| && rounds[id].phase.Won? && rounds[id].slot.Empty? && rounds[id].errand.Ping?
      requires |others| == 3 && NoneBy(others, id)
      requires Now() == Run(before)
      modifies this
      ensures Now() == Run(es) && Continues(es, before, others, {id})
      ensures id < |rounds| && rounds[id].errand == old(rounds[id].errand) && rounds[id].phase.Released?
      ensures taken == routed
      ensures Silent(others) ==>
        var key := KeyOf(old(rounds[id].errand));
        table == (if routed then old(table)[key := id] else old(table)) && locks == old(locks) - {key}
    {
      hide Run, NotBy, KeyOf, Continues;
      Starts(before, others, {id});
      Grows(before, before, others, {id}, 0);
      Meanwhile(others[0], id, before);
      es := before + others[0];
      RunStep(es, Advance(id, routed));
      Steps(es, before, others, {id}, id, routed);
      es := es + [Advance(id, routed)];
      taken := true;
      if routed {
        Put(id);
      } else {
        taken := false;
        Reach(id, Unrouted);
      }
      ghost var created := es;
      es := Release(id, others[1..], es);
      Joins(es, created, before, others[1..], {id}, others, {id});
    }
  }

  lemma PacketKey(source: string, port: nat, app: Option<nat>)
    ensures KeyOf(Packet(source, port, app)) == Text(source + ":" + Decimal(port))
  {
  }

  lemma PingKey(source: string, destination: string)
    ensures KeyOf(Ping(source, destination)) == Text(source + "-" + destination)
  {
  }

  lemma AdvanceKeeps(es: seq<Event>, id: nat)
    ensures Admissible(es) ==> Admissible(es + [Advance(id, true)])
    ensures forall u :: NeverReset(es, u) ==> NeverReset(es + [Advance(id, true)], u)
  {
  }

  lemma TailOf(others: seq<seq<Event>>, id: nat)
    requires others != []
    ensures NoneBy(others, id) ==> NoneBy(others[1..], id)
    ensures Silent(others) ==> Silent(others[1..])
    ensures AllAdmissible(others) ==> AllAdmissible(others[1..])
    ensures forall u :: NoneResets(others, u) ==> NoneResets(others[1..], u)
  {
    forall u | NoneResets(others, u)
      ensures NoneResets(others[1..], u)
    {
    }
  }

  /** A round that continues an admissible run without a reset does not panic. */
  lemma NeverCrashes(es: seq<Event>, before: seq<Event>, others: seq<seq<Event>>, id: nat, uid: nat)
    requires Continues(es, before, others, {id})
    requires id < |Run(es).rounds| && Run(es).rounds[id].errand == Conn(uid)
    ensures Admissible(before) && AllAdmissible(others) && NeverReset(before, uid) && NoneResets(others, uid)
      ==> !Run(es).rounds[id].phase.Panicked?
  {
    hide Run, Continues, StatsKept;
    KeepsAdmissible(es, before, others, {id});
    if Admissible(es) && NeverReset(es, uid) {
      NoPanic(es, uid);
    }
  }
}
