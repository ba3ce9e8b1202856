/** The traffic counters of one app (stats.go): sessions add bytes atomically while readers
    swap the pending counters out and accumulate them, in any interleaving. */
module Traffic {
  import opened Counting

  const TWO_64 := 0x1_0000_0000_0000_0000
  const TWO_63 := 0x8000_0000_0000_0000

  type U64 = x: nat | x < TWO_64

  datatype Direction = Up | Down

  /** The counter that sessions add to, and the total that readers add to. */
  datatype Pair = Pair(pending: U64, total: U64)

  /** How far one call that reads the statistics has come with this app. */
  datatype Reader =
    | Ready
    | UpSwapped(up: U64)
    | UpAdded(up: U64, upTotal: U64)
    | DownSwapped(up: U64, upTotal: U64, down: U64)
    | DownAdded(up: U64, upTotal: U64, down: U64, downTotal: U64)
    | Reported(up: U64, upTotal: U64, down: U64, downTotal: U64)

  datatype State = State(up: Pair, down: Pair, readers: seq<Reader>)

  /** A session reads or writes n bytes of an app's connection, or a reader takes one step. A
      TCP connection is the app's end, so what is read there goes up; a UDP connection is the
      outbound end. A UDP operation that failed is not counted. */
  datatype Event =
    | TcpRead(n: nat)
    | TcpWrite(n: nat)
    | UdpReadFrom(n: nat, ok: bool)
    | UdpWriteTo(n: nat, ok: bool)
    | StartRead
    | Advance(id: nat)

  const Initial := State(Pair(0, 0), Pair(0, 0), [])

  function AddTo(x: U64, n: nat): U64 {
    (x + n) % TWO_64
  }

  function Count(s: State, d: Direction, n: nat): State {
    if d == Up then s.(up := Pair(AddTo(s.up.pending, n), s.up.total))
    else s.(down := Pair(AddTo(s.down.pending, n), s.down.total))
  }

  function Goto(s: State, id: nat, r: Reader): State
    requires id < |s.readers|
  {
    s.(readers := s.readers[id := r])
  }

  /** One atomic operation. */
  function Step(s: State, e: Event): State {
    match e
    case TcpRead(n) => Count(s, Up, n)
    case TcpWrite(n) => Count(s, Down, n)
    case UdpReadFrom(n, ok) => if ok then Count(s, Down, n) else s
    case UdpWriteTo(n, ok) => if ok then Count(s, Up, n) else s
    case StartRead => s.(readers := s.readers + [Ready])
    case Advance(id) =>
      if id >= |s.readers| then s
      else
        match s.readers[id]
        case Ready =>
          Goto(s.(up := Pair(0, s.up.total)), id, UpSwapped(s.up.pending))
        case UpSwapped(up) =>
          var t := AddTo(s.up.total, up);
          Goto(s.(up := Pair(s.up.pending, t)), id, UpAdded(up, t))
        case UpAdded(up, upTotal) =>
          Goto(s.(down := Pair(0, s.down.total)), id, DownSwapped(up, upTotal, s.down.pending))
        case DownSwapped(up, upTotal, down) =>
          var t := AddTo(s.down.total, down);
          Goto(s.(down := Pair(s.down.pending, t)), id, DownAdded(up, upTotal, down, t))
        case DownAdded(up, upTotal, down, downTotal) =>
          Goto(s, id, Reported(up, upTotal, down, downTotal))
        case Reported(_, _, _, _) => s
  }

  function Run(es: seq<Event>): State {
    if es == [] then Initial else Step(Run(es[..|es| - 1]), es[|es| - 1])
  }

  function RunFrom(s: State, es: seq<Event>): State {
    if es == [] then s else Step(RunFrom(s, es[..|es| - 1]), es[|es| - 1])
  }

  lemma {:induction false} RunIs(es: seq<Event>)
    ensures Run(es) == RunFrom(Initial, es)
  {
    hide Step;
    if es != [] {
      RunIs(es[..|es| - 1]);
    }
  }

  lemma RunThen(s: State, es: seq<Event>, e: Event)
    ensures RunFrom(s, es + [e]) == Step(RunFrom(s, es), e)
  {
    assert (es + [e])[..|es|] == es;
  }

  lemma {:induction false} RunAppend(s: State, es: seq<Event>, more: seq<Event>)
    ensures RunFrom(s, es + more) == RunFrom(RunFrom(s, es), more)
  {
    hide Step;
    if more == [] {
      assert es + more == es;
    } else {
      RunAppend(s, es, more[..|more| - 1]);
      assert (es + more)[..|es + more| - 1] == es + more[..|more| - 1];
    }
  }

  predicate NotBy(es: seq<Event>, id: nat) {
    forall i :: 0 <= i < |es| ==> es[i] != Advance(id)
  }

  /** A reader moves by its own steps alone. */
  lemma {:induction false} OthersKeep(s: State, es: seq<Event>, id: nat)
    requires id < |s.readers| && NotBy(es, id)
    ensures id < |RunFrom(s, es).readers| && RunFrom(s, es).readers[id] == s.readers[id]
  {
    if es != [] {
      OthersKeep(s, es[..|es| - 1], id);
    }
  }

  // ---- What the counters are for ----

  /** The bytes that went in a direction during one event. */
  function Carried(e: Event, d: Direction): nat {
    match e
    case TcpRead(n) => if d == Up then n else 0
    case TcpWrite(n) => if d == Down then n else 0
    case UdpReadFrom(n, ok) => if ok && d == Down then n else 0
    case UdpWriteTo(n, ok) => if ok && d == Up then n else 0
    case _ => 0
  }

  function Bytes(es: seq<Event>, d: Direction): nat {
    Sum(es, (e: Event) => Carried(e, d))
  }

  /** What is read from an app's TCP connection and what is sent over its UDP connection goes up,
      what is written to the one and received on the other comes down, failed operations and reads
      of the statistics carry nothing. */
  lemma BytesCarried(es: seq<Event>, n: nat, id: nat)
    ensures Bytes([], Up) == Bytes([], Down) == 0
    ensures Bytes(es + [TcpRead(n)], Up) == Bytes(es + [UdpWriteTo(n, true)], Up) == Bytes(es, Up) + n
    ensures Bytes(es + [TcpWrite(n)], Down) == Bytes(es + [UdpReadFrom(n, true)], Down) == Bytes(es, Down) + n
    ensures Bytes(es + [TcpRead(n)], Down) == Bytes(es + [UdpWriteTo(n, true)], Down) == Bytes(es, Down)
    ensures Bytes(es + [TcpWrite(n)], Up) == Bytes(es + [UdpReadFrom(n, true)], Up) == Bytes(es, Up)
    ensures forall e :: e in [UdpReadFrom(n, false), UdpWriteTo(n, false), StartRead, Advance(id)] ==>
      Bytes(es + [e], Up) == Bytes(es, Up) && Bytes(es + [e], Down) == Bytes(es, Down)
  {
    hide Bytes;
    OneMore(es, TcpRead(n));
    OneMore(es, TcpWrite(n));
    OneMore(es, UdpReadFrom(n, true));
    OneMore(es, UdpWriteTo(n, true));
    forall e | e in [UdpReadFrom(n, false), UdpWriteTo(n, false), StartRead, Advance(id)]
      ensures Bytes(es + [e], Up) == Bytes(es, Up) && Bytes(es + [e], Down) == Bytes(es, Down)
    {
      OneMore(es, e);
    }
  }

  lemma OneMore(es: seq<Event>, e: Event)
    ensures Bytes([], Up) == Bytes([], Down) == 0
    ensures Bytes(es + [e], Up) == Bytes(es, Up) + Carried(e, Up)
    ensures Bytes(es + [e], Down) == Bytes(es, Down) + Carried(e, Down)
  {
    hide Carried;
    SumAppend(es, e, (e: Event) => Carried(e, Up));
    SumAppend(es, e, (e: Event) => Carried(e, Down));
  }

  /** Swapped out and not yet added to the total. */
  function InFlight(r: Reader, d: Direction): nat {
    match d
    case Up => if r.UpSwapped? then r.up else 0
    case Down => if r.DownSwapped? then r.down else 0
  }

  /** Added to the total, reported or not. */
  function Accumulated(r: Reader, d: Direction): nat {
    match d
    case Up => if r.Ready? || r.UpSwapped? then 0 else r.up
    case Down => if r.DownAdded? || r.Reported? then r.down else 0
  }

  function PairOf(s: State, d: Direction): Pair {
    if d == Up then s.up else s.down
  }

  function TotalInFlight(s: State, d: Direction): nat {
    Sum(s.readers, (r: Reader) => InFlight(r, d))
  }

  function TotalAccumulated(s: State, d: Direction): nat {
    Sum(s.readers, (r: Reader) => Accumulated(r, d))
  }

  /** x and y differ by a multiple of 2^64. */
  ghost predicate Congruent(x: int, y: int) {
    exists k: int :: x == y + k * TWO_64
  }

  lemma AddToCongruent(x: U64, n: nat, a: int, b: int)
    requires Congruent(x + a, b)
    ensures Congruent(AddTo(x, n) + a, b + n)
  {
    var k: int :| x + a == b + k * TWO_64;
    var q := (x + n) / TWO_64;
    assert AddTo(x, n) + a == (b + n) + (k - q) * TWO_64;
  }

  lemma AddToTotal(t: U64, n: nat, b: int)
    requires Congruent(t, b)
    ensures Congruent(AddTo(t, n), b + n)
  {
    AddToCongruent(t, n, 0, b);
  }

  /** Conservation: what is pending, in flight and totalled is what was ever carried, and the
      total is what the reads accumulated, both modulo 2^64. */
  ghost predicate Conserved(s: State, carried: nat, d: Direction) {
    && Congruent(PairOf(s, d).pending + (TotalInFlight(s, d) + PairOf(s, d).total), carried)
    && Congruent(PairOf(s, d).total, TotalAccumulated(s, d))
  }

  lemma ReaderChanges(s: State, id: nat, r: Reader, d: Direction)
    requires id < |s.readers|
    ensures var s' := Goto(s, id, r);
            && TotalInFlight(s', d) + InFlight(s.readers[id], d) == TotalInFlight(s, d) + InFlight(r, d)
            && TotalAccumulated(s', d) + Accumulated(s.readers[id], d) == TotalAccumulated(s, d) + Accumulated(r, d)
  {
    SumUpdate(s.readers, id, r, (r: Reader) => InFlight(r, d));
    SumUpdate(s.readers, id, r, (r: Reader) => Accumulated(r, d));
  }

  lemma StepConserves(s: State, e: Event, carried: nat, d: Direction)
    requires Conserved(s, carried, d)
    ensures Conserved(Step(s, e), carried + Carried(e, d), d)
  {
    hide Congruent, AddTo, Sum;
    var s' := Step(s, e);
    var p := PairOf(s, d);
    match e
    case StartRead =>
      SumAppend(s.readers, Ready, (r: Reader) => InFlight(r, d));
      SumAppend(s.readers, Ready, (r: Reader) => Accumulated(r, d));
    case Advance(id) =>
      if id < |s.readers| {
        hide TotalInFlight, TotalAccumulated;
        ReaderChanges(s, id, s'.readers[id], d);
        SameReaders(s', Goto(s, id, s'.readers[id]), d);
        if (s.readers[id].UpSwapped? && d == Up) || (s.readers[id].DownSwapped? && d == Down) {
          var v := InFlight(s.readers[id], d);
          AddToTotal(p.total, v, TotalAccumulated(s, d));
          Regroup(p, TotalInFlight(s, d), v, carried);
        }
      }
    case _ =>
      assert TotalInFlight(s', d) == TotalInFlight(s, d) && TotalAccumulated(s', d) == TotalAccumulated(s, d);
      AddToCongruent(p.pending, Carried(e, d), TotalInFlight(s, d) + p.total, carried);
  }

  lemma SameReaders(s: State, t: State, d: Direction)
    requires s.readers == t.readers
    ensures TotalInFlight(s, d) == TotalInFlight(t, d) && TotalAccumulated(s, d) == TotalAccumulated(t, d)
  {
  }

  /** Moving v from flight to the total keeps the sum. */
  lemma Regroup(p: Pair, inFlight: nat, v: nat, carried: nat)
    requires v <= inFlight
    requires Congruent(p.pending + (inFlight + p.total), carried)
    ensures Congruent(p.pending + ((inFlight - v) + AddTo(p.total, v)), carried)
  {
    var k: int :| p.pending + (inFlight + p.total) == carried + k * TWO_64;
    var q := (p.total + v) / TWO_64;
    assert p.pending + ((inFlight - v) + AddTo(p.total, v)) == carried + (k - q) * TWO_64;
  }

  // ---- Main results ----

  lemma {:induction false} TrafficIsConserved(es: seq<Event>, d: Direction)
    ensures Conserved(Run(es), Bytes(es, d), d)
  {
    if es == [] {
      assert PairOf(Initial, d).pending + (0 + PairOf(Initial, d).total) == 0 + 0 * TWO_64;
      assert PairOf(Initial, d).total == 0 + 0 * TWO_64;
    } else {
      var pre, e := es[..|es| - 1], es[|es| - 1];
      TrafficIsConserved(pre, d);
      hide Conserved, Step;
      StepConserves(Run(pre), e, Bytes(pre, d), d);
    }
  }

  /** Between reads, what the finished reads reported plus what is pending is what was carried. */
  lemma ReportedIsCarried(es: seq<Event>, d: Direction)
    requires forall id :: 0 <= id < |Run(es).readers| ==> Run(es).readers[id].Reported? || Run(es).readers[id].Ready?
    ensures Congruent(TotalAccumulated(Run(es), d) + PairOf(Run(es), d).pending, Bytes(es, d))
  {
    TrafficIsConserved(es, d);
    var s := Run(es);
    SumZero(s.readers, (r: Reader) => InFlight(r, d));
    var p := PairOf(s, d);
    var k: int :| p.pending + (TotalInFlight(s, d) + p.total) == Bytes(es, d) + k * TWO_64;
    var m: int :| p.total == TotalAccumulated(s, d) + m * TWO_64;
    assert TotalAccumulated(s, d) + p.pending == Bytes(es, d) + (k - m) * TWO_64;
  }

  /** The conversion to a signed 64-bit number on export. */
  function ToInt64(x: U64): (r: int)
    ensures -0x8000_0000_0000_0000 <= r < 0x8000_0000_0000_0000 && (r - x) % 0x1_0000_0000_0000_0000 == 0
  {
    if x < TWO_63 then x else x - TWO_64
  }

  // ---- Without wrap-around everything is exact ----

  /** The total a reader got back from its addition. */
  function TotalSeen(r: Reader, d: Direction): nat {
    match d
    case Up => if r.Ready? || r.UpSwapped? then 0 else r.upTotal
    case Down => if r.DownAdded? || r.Reported? then r.downTotal else 0
  }

  ghost predicate Balanced(s: State, carried: nat, d: Direction) {
    && PairOf(s, d).pending + TotalInFlight(s, d) + PairOf(s, d).total == carried
    && PairOf(s, d).total == TotalAccumulated(s, d)
  }

  ghost predicate TotalsAreRecent(s: State, d: Direction) {
    forall id :: 0 <= id < |s.readers| ==>
      Accumulated(s.readers[id], d) <= TotalSeen(s.readers[id], d) <= PairOf(s, d).total
  }

  lemma AddToExact(x: U64, n: nat)
    requires x + n < TWO_64
    ensures AddTo(x, n) == x + n
  {
  }

  lemma StepBalances(s: State, e: Event, carried: nat, d: Direction)
    requires Balanced(s, carried, d) && carried + Carried(e, d) < TWO_64
    ensures Balanced(Step(s, e), carried + Carried(e, d), d)
  {
    hide Sum, AddTo;
    var s' := Step(s, e);
    match e
    case StartRead =>
      SumAppend(s.readers, Ready, (r: Reader) => InFlight(r, d));
      SumAppend(s.readers, Ready, (r: Reader) => Accumulated(r, d));
    case Advance(id) =>
      if id < |s.readers| {
        hide TotalInFlight, TotalAccumulated;
        ReaderChanges(s, id, s'.readers[id], d);
        SameReaders(s', Goto(s, id, s'.readers[id]), d);
        InFlightIsBounded(s, id, d);
        AddToExact(PairOf(s, d).total, InFlight(s.readers[id], d));
      }
    case _ =>
      SameReaders(s, s', d);
      AddToExact(PairOf(s, d).pending, Carried(e, d));
  }

  lemma StepKeepsTotalsRecent(s: State, e: Event, carried: nat, d: Direction)
    requires Balanced(s, carried, d) && carried < TWO_64 && TotalsAreRecent(s, d)
    ensures TotalsAreRecent(Step(s, e), d)
  {
    hide AddTo, TotalInFlight, TotalAccumulated;
    var s' := Step(s, e);
    if e.Advance? && e.id < |s.readers| {
      InFlightIsBounded(s, e.id, d);
      AddToExact(PairOf(s, d).total, InFlight(s.readers[e.id], d));
      assert forall k :: 0 <= k < |s.readers| && k != e.id ==> s'.readers[k] == s.readers[k];
    } else {
      assert forall k :: 0 <= k < |s.readers| ==> s'.readers[k] == s.readers[k];
    }
  }

  lemma InFlightIsBounded(s: State, id: nat, d: Direction)
    requires id < |s.readers|
    ensures InFlight(s.readers[id], d) <= TotalInFlight(s, d)
  {
    SumAtLeast(s.readers, id, (r: Reader) => InFlight(r, d));
  }

  lemma {:induction false} ExactWithoutWrap(es: seq<Event>, d: Direction)
    requires Bytes(es, d) < TWO_64
    ensures Balanced(Run(es), Bytes(es, d), d) && TotalsAreRecent(Run(es), d)
  {
    if es != [] {
      var pre, e := es[..|es| - 1], es[|es| - 1];
      ExactWithoutWrap(pre, d);
      hide Balanced, TotalsAreRecent, Step;
      StepBalances(Run(pre), e, Bytes(pre, d), d);
      StepKeepsTotalsRecent(Run(pre), e, Bytes(pre, d), d);
    }
  }

  /** Below 2^63 bytes in a direction no exported number is negative or wrapped: each is the
      value that the reader swapped out or got back, and never more than was carried. */
  lemma ExportsAreExact(es: seq<Event>, d: Direction, id: nat)
    requires Bytes(es, d) < TWO_63
    requires id < |Run(es).readers| && Run(es).readers[id].Reported?
    ensures var r := Run(es).readers[id];
            && ToInt64(Accumulated(r, d)) == Accumulated(r, d)
            && ToInt64(TotalSeen(r, d)) == TotalSeen(r, d)
            && Accumulated(r, d) <= TotalSeen(r, d) <= Bytes(es, d)
  {
    ExactWithoutWrap(es, d);
  }
}
