/** What the deactivation stamp of SessionCounters says about live sessions: it tells which came
    last, a stamp or a clear, and a live session is stamped over only by a closer whose decrement
    came before that session's clear. */
module StampHistory {
  import opened Counting
  import opened SessionCounters

  /** This operation sets the stamp. */
  predicate Stamps(s: State, e: Event) {
    e.Advance? && e.id < |s.sessions| && s.sessions[e.id].phase == Compared(0)
  }

  /** This one clears it. */
  predicate Clears(s: State, e: Event) {
    e.Advance? && e.id < |s.sessions| && s.sessions[e.id].phase.Totalled?
  }

  /** A session takes its live counter down to 0. */
  predicate Drains(s: State, e: Event) {
    e.Advance? && e.id < |s.sessions| && s.sessions[e.id].phase.Listed? && Counter(s, s.sessions[e.id].kind) == 1
  }

  ghost predicate StampedAt(es: seq<Event>, t: nat) {
    && t < |es| && Stamps(Run(es[..t]), es[t])
    && forall j :: t < j < |es| ==> !Clears(Run(es[..j]), es[j])
  }

  lemma StampStepExactly(s: State, e: Event)
    requires Admissible(e)
    ensures Step(s, e).deactivateAt != 0 <==> Stamps(s, e) || (s.deactivateAt != 0 && !Clears(s, e))
  {
    hide Without;
  }

  lemma StampsOrClears(s: State, e: Event)
    ensures !(Stamps(s, e) && Clears(s, e))
  {
  }

  lemma StampedStep(es: seq<Event>)
    requires es != []
    ensures var pre, e := es[..|es| - 1], es[|es| - 1];
      (exists t: nat :: StampedAt(es, t)) <==>
        Stamps(Run(pre), e) || ((exists t: nat :: StampedAt(pre, t)) && !Clears(Run(pre), e))
  {
    hide Run, Stamps, Clears;
    var n := |es| - 1;
    var pre := es[..n];
    assert forall i :: 0 <= i <= n ==> pre[..i] == es[..i];
    StampsOrClears(Run(pre), es[n]);
    if Stamps(Run(pre), es[n]) {
      assert StampedAt(es, n);
    }
    if !Clears(Run(pre), es[n]) && exists t: nat :: StampedAt(pre, t) {
      var t: nat :| StampedAt(pre, t);
      assert StampedAt(es, t);
    }
    if exists t: nat :: StampedAt(es, t) {
      var t: nat :| StampedAt(es, t);
      assert t < n ==> StampedAt(pre, t);
    }
  }

  /** In every run the stamp is set exactly if some session stamped and none cleared since. */
  lemma {:induction false} StampedExactly(es: seq<Event>)
    requires AllAdmissible(es)
    ensures Run(es).deactivateAt != 0 <==> exists t: nat :: StampedAt(es, t)
  {
    if es != [] {
      var pre, e := es[..|es| - 1], es[|es| - 1];
      StampedExactly(pre);
      hide Step, StampedAt, Stamps, Clears;
      StampStepExactly(Run(pre), e);
      StampedStep(es);
    }
  }

  ghost predicate LastStampedAt(es: seq<Event>, t: nat) {
    StampedAt(es, t) && forall j :: t < j < |es| ==> !Stamps(Run(es[..j]), es[j])
  }

  /** And it is the time at which the last of them did. */
  lemma {:induction false} StampIsLastTime(es: seq<Event>, t: nat)
    requires LastStampedAt(es, t)
    ensures Run(es).deactivateAt == es[t].now
  {
    hide Stamps, Clears, Step;
    var n := |es| - 1;
    var pre := es[..n];
    assert forall i :: 0 <= i <= n ==> pre[..i] == es[..i];
    StampIsNow(Run(pre), es[n]);
    if t < n {
      assert LastStampedAt(pre, t);
      StampIsLastTime(pre, t);
    }
  }

  lemma StampIsNow(s: State, e: Event)
    ensures Stamps(s, e) ==> Step(s, e).deactivateAt == e.now
    ensures !Stamps(s, e) && !Clears(s, e) ==> Step(s, e).deactivateAt == s.deactivateAt
  {
    hide Without;
  }

  // ---- Live sessions ----

  /** Counted and woken: what a set stamp should exclude. */
  predicate Active(s: State, x: nat) {
    x < |s.sessions| && (s.sessions[x].phase.Awake? || s.sessions[x].phase.Listed?)
  }

  /** A session that is active at the end was active since its clear. */
  lemma {:induction false} ActiveSince(es: seq<Event>, n: nat, x: nat)
    requires n <= |es| && Active(Run(es), x)
    requires forall j :: n <= j < |es| ==> !(Clears(Run(es[..j]), es[j]) && es[j].id == x)
    ensures Active(Run(es[..n]), x)
  {
    if n == |es| {
      assert es[..n] == es;
    } else {
      var pre, e := es[..|es| - 1], es[|es| - 1];
      assert forall j :: 0 <= j <= |pre| ==> pre[..j] == es[..j];
      ActiveBefore(Run(pre), e, x);
      ActiveSince(pre, n, x);
    }
  }

  lemma ActiveBefore(s: State, e: Event, x: nat)
    requires Active(Step(s, e), x) && !(Clears(s, e) && e.id == x)
    ensures Active(s, x)
  {
    hide Without;
  }

  /** A session bound to stamp has drained its counter. */
  ghost predicate DrainedAt(es: seq<Event>, d: nat, i: nat) {
    d < |es| && Drains(Run(es[..d]), es[d]) && es[d].id == i
  }

  ghost predicate ClearedAt(es: seq<Event>, c: nat, x: nat) {
    c < |es| && Clears(Run(es[..c]), es[c]) && es[c].id == x
  }

  lemma {:induction false} LeftIsNatural(es: seq<Event>, i: nat)
    requires AllAdmissible(es) && i < |Run(es).sessions| && Run(es).sessions[i].phase.Left?
    ensures Run(es).sessions[i].phase.own >= 0
  {
    if es != [] {
      hide Without, CountersOk, ListOk, StampOk;
      var pre, e := es[..|es| - 1], es[|es| - 1];
      if e.Advance? && e.id == i && i < |Run(pre).sessions| && Run(pre).sessions[i].phase.Listed? {
        InvariantHolds(pre);
        LiveIsCounted(Run(pre), i);
      } else {
        LeftIsNatural(pre, i);
      }
    }
  }

  /** How a session comes to be bound to stamp. */
  lemma BoundStep(s: State, e: Event, i: nat)
    requires CountersOk(s) && i < |Step(s, e).sessions| && WillStamp(Step(s, e).sessions[i].phase)
    requires i < |s.sessions| && s.sessions[i].phase.Left? ==> s.sessions[i].phase.own >= 0
    ensures i < |s.sessions| && Step(s, e).sessions[i].kind == s.sessions[i].kind
    ensures (Drains(s, e) && e.id == i && Step(s, e).sessions[i].phase == Left(0)
             && Counter(Step(s, e), s.sessions[i].kind) == 0)
         || Step(s, e).sessions[i].phase == s.sessions[i].phase
         || (s.sessions[i].phase == Left(0) && Counter(s, Other(s.sessions[i].kind)) == 0
             && Step(s, e).sessions[i].phase == Compared(0) && e.Advance? && e.id == i)
  {
    hide Without;
  }

  lemma {:induction false} DrainHappened(es: seq<Event>, i: nat)
    requires AllAdmissible(es) && i < |Run(es).sessions| && WillStamp(Run(es).sessions[i].phase)
    ensures exists d: nat :: DrainedAt(es, d, i)
  {
    if es != [] {
      hide Step, CountersOk, ListOk, StampOk, Drains;
      var pre, e := es[..|es| - 1], es[|es| - 1];
      InvariantHolds(pre);
      if i < |Run(pre).sessions| && Run(pre).sessions[i].phase.Left? {
        LeftIsNatural(pre, i);
      }
      BoundStep(Run(pre), e, i);
      if Drains(Run(pre), e) && e.id == i {
        assert DrainedAt(es, |pre|, i);
      } else {
        DrainHappened(pre, i);
        var d: nat :| DrainedAt(pre, d, i);
        assert pre[..d] == es[..d];
        assert DrainedAt(es, d, i);
      }
    }
  }

  /** A closer about to stamp that no active session could have stopped. */
  predicate Overtaken(s: State, i: nat, x: nat) {
    && Active(s, x) && i < |s.sessions|
    && (|| s.sessions[i].phase == Compared(0)
        || (s.sessions[i].phase == Left(0) && s.sessions[i].kind == s.sessions[x].kind))
  }

  lemma OvertakenStep(s: State, e: Event, i: nat, x: nat)
    requires CountersOk(s) && CountersOk(Step(s, e)) && Overtaken(Step(s, e), i, x)
    requires i < |s.sessions| && s.sessions[i].phase.Left? ==> s.sessions[i].phase.own >= 0
    ensures (Clears(s, e) && e.id == x && i < |s.sessions| && WillStamp(s.sessions[i].phase)) || Overtaken(s, i, x)
  {
    var s' := Step(s, e);
    LiveIsCounted(s', x);
    BoundStep(s, e, i);
    if !(Clears(s, e) && e.id == x) {
      ActiveBefore(s, e, x);
      LiveIsCounted(s, x);
      KindStays(s, e, x);
    } else {
      ClearsOnly(s, e, i);
    }
    hide Step, CountersOk;
  }

  lemma KindStays(s: State, e: Event, x: nat)
    requires x < |s.sessions|
    ensures x < |Step(s, e).sessions| && Step(s, e).sessions[x].kind == s.sessions[x].kind
  {
    hide Without;
  }

  lemma ClearsOnly(s: State, e: Event, i: nat)
    requires Clears(s, e) && i < |s.sessions| && i != e.id
    ensures i < |Step(s, e).sessions| && Step(s, e).sessions[i] == s.sessions[i]
  {
    hide Without;
  }

  lemma {:induction false} OvertakenHistory(es: seq<Event>, i: nat, x: nat)
    requires AllAdmissible(es) && Overtaken(Run(es), i, x)
    ensures exists d: nat, c: nat :: d < c && DrainedAt(es, d, i) && ClearedAt(es, c, x)
  {
    if es != [] {
      hide Step, CountersOk, ListOk, StampOk, Drains, Clears, Overtaken;
      var pre, e := es[..|es| - 1], es[|es| - 1];
      InvariantHolds(pre);
      InvariantHolds(es);
      if i < |Run(pre).sessions| && Run(pre).sessions[i].phase.Left? {
        LeftIsNatural(pre, i);
      }
      OvertakenStep(Run(pre), e, i, x);
      if Overtaken(Run(pre), i, x) {
        OvertakenHistory(pre, i, x);
        var d: nat, c: nat :| d < c && DrainedAt(pre, d, i) && ClearedAt(pre, c, x);
        assert pre[..d] == es[..d] && pre[..c] == es[..c];
        assert DrainedAt(es, d, i) && ClearedAt(es, c, x);
      } else {
        DrainHappened(pre, i);
        var d: nat :| DrainedAt(pre, d, i);
        assert pre[..d] == es[..d];
        assert DrainedAt(es, d, i) && ClearedAt(es, |pre|, x);
      }
    }
  }

  // ---- Main results ----

  /** A closer drained its counter before this session's clear and stamped after the last clear. */
  ghost predicate StampedOver(es: seq<Event>, x: nat) {
    exists d: nat, c: nat, t: nat ::
      d < c < t && StampedAt(es, t) && ClearedAt(es, c, x) && DrainedAt(es, d, es[t].id)
  }

  /** With a session active, the stamp is set exactly if a closer drained its counter before that
      session cleared the stamp, and set it after the last clear. */
  lemma StampOnActiveExactly(es: seq<Event>, x: nat)
    requires AllAdmissible(es) && Active(Run(es), x)
    ensures Run(es).deactivateAt != 0 <==> StampedOver(es, x)
  {
    hide Step, Drains, Clears, Run;
    StampedExactly(es);
    if Run(es).deactivateAt != 0 {
      var t: nat :| StampedAt(es, t);
      var i, pre := es[t].id, es[..t];
      assert Overtaken(Run(pre), i, x) by {
        assert forall j :: t < j < |es| ==> !Clears(Run(es[..j]), es[j]);
        StampsOrClears(Run(pre), es[t]);
        ActiveSince(es, t, x);
        StampIsCompared(Run(pre), es[t]);
      }
      OvertakenHistory(pre, i, x);
      var d: nat, c: nat :| d < c && DrainedAt(pre, d, i) && ClearedAt(pre, c, x);
      assert pre[..d] == es[..d] && pre[..c] == es[..c];
      assert DrainedAt(es, d, i) && ClearedAt(es, c, x);
    }
  }

  lemma StampIsCompared(s: State, e: Event)
    requires Stamps(s, e)
    ensures e.id < |s.sessions| && s.sessions[e.id].phase == Compared(0)
  {
  }

  /** No clear falls between a closer's drain and its stamp. */
  ghost predicate ClosersUndisturbed(es: seq<Event>) {
    forall d: nat, c: nat, t: nat, x: nat ::
      d < c < t < |es| && es[t].Advance? && DrainedAt(es, d, es[t].id) && Stamps(Run(es[..t]), es[t]) ==>
        !ClearedAt(es, c, x)
  }

  /** In such runs a set stamp means that no session is active. */
  lemma StampMeansIdle(es: seq<Event>, x: nat)
    requires AllAdmissible(es) && ClosersUndisturbed(es) && Run(es).deactivateAt != 0
    ensures !Active(Run(es), x)
  {
    hide Run, Active;
    if Active(Run(es), x) {
      StampOnActiveExactly(es, x);
    }
  }
}
