/** The bounded queue between an outbound UDP connection and its reader (`dispatcherConn` in
    v2ray.go). The receive loop and the readers run concurrently; each event is one channel
    operation. */
module PacketQueue {
  import opened Bytes

  const CAPACITY := 16

  datatype Address = Ip(bytes: seq<Byte>) | Domain(name: string)

  datatype Destination = Destination(address: Address, port: U16)

  const ANY_IP := Ip([0, 0, 0, 0])

  datatype Buffer = Buffer(data: seq<Byte>, endpoint: Option<Destination>)

  /** A queued packet; `number` is its buffer's position among all received. */
  datatype Packet = Packet(number: nat, payload: Buffer, source: Destination)

  datatype State = State(
    dest: Destination,
    received: seq<Buffer>,
    queue: seq<Packet>,
    delivered: seq<Packet>,
    released: seq<nat>,        // numbers of the buffers that were dropped
    done: bool,                // the context was cancelled
    closed: bool)

  /** `pick` decides between two channel operations that are both possible. */
  datatype Event =
    | Receive(buffer: Buffer, pick: bool)
    | Read(pick: bool)
    | Cancel
    | Close

  function SourceOf(dest: Destination, b: Buffer): Destination {
    var source := if b.endpoint.None? then dest else b.endpoint.value;
    if source.address.Domain? then Destination(ANY_IP, source.port) else source
  }

  function PacketOf(s: State, n: nat): Packet
    requires n < |s.received|
  {
    Packet(n, s.received[n], SourceOf(s.dest, s.received[n]))
  }

  function Offer(s: State, b: Buffer, pick: bool): State {
    var t := s.(received := s.received + [b]);
    var n := |s.received|;
    if |b.data| == 0 then t
    else if |s.queue| < CAPACITY && (!s.done || pick) then t.(queue := s.queue + [PacketOf(t, n)])
    else t.(released := s.released + [n])
  }

  function Take(s: State, pick: bool): State {
    if s.queue == [] || (s.done && pick) then s
    else s.(queue := s.queue[1..], delivered := s.delivered + [s.queue[0]])
  }

  function Step(s: State, e: Event): State {
    match e
    case Receive(b, pick) => Offer(s, b, pick)
    case Read(pick) => Take(s, pick)
    case Cancel => s.(done := true)
    case Close => s.(done := true, closed := true)
  }

  function Initial(dest: Destination): State {
    State(dest, [], [], [], [], false, false)
  }

  function RunFrom(s: State, es: seq<Event>): State {
    if es == [] then s else Step(RunFrom(s, es[..|es| - 1]), es[|es| - 1])
  }

  // ---- What holds in every reachable state ----

  /** Every packet handed on, in order. */
  function Accepted(s: State): seq<Packet> {
    s.delivered + s.queue
  }

  predicate Increasing(ps: seq<Packet>) {
    forall i, j :: 0 <= i < j < |ps| ==> ps[i].number < ps[j].number
  }

  /** A non-empty received buffer with its source: its own endpoint, or the dialled destination
      if it has none, and the address 0.0.0.0 in the place of a domain. */
  predicate Genuine(s: State, p: Packet) {
    && p.number < |s.received| && p.payload == s.received[p.number] && p.payload.data != []
    && var from := if p.payload.endpoint.Some? then p.payload.endpoint.value else s.dest;
    && p.source.port == from.port
    && (from.address.Ip? ==> p.source.address == from.address)
    && (from.address.Domain? ==> p.source.address == Ip([0, 0, 0, 0]))
  }

  function Times(ps: seq<Packet>, n: nat): nat {
    if ps == [] then 0 else Times(ps[..|ps| - 1], n) + if ps[|ps| - 1].number == n then 1 else 0
  }

  /** How often a received buffer is delivered, queued or released. */
  function Fates(s: State, n: nat): nat {
    Times(s.delivered, n) + Times(s.queue, n) + multiset(s.released)[n]
  }

  ghost predicate Ordered(s: State) {
    && |s.queue| <= 16
    && Increasing(Accepted(s))
    && (forall p :: p in Accepted(s) ==> Genuine(s, p))
    && (forall n :: n in s.released ==> n < |s.received|)
  }

  ghost predicate Conserved(s: State) {
    forall n: nat :: Fates(s, n) == if n < |s.received| && s.received[n].data != [] then 1 else 0
  }

  lemma TakeKeepsAccepted(s: State, pick: bool)
    ensures Accepted(Take(s, pick)) == Accepted(s)
  {
  }

  lemma StaysGenuine(s: State, t: State, p: Packet)
    requires s.dest == t.dest && s.received <= t.received && Genuine(s, p)
    ensures Genuine(t, p)
  {
  }

  lemma OfferedIsGenuine(s: State, n: nat)
    requires n < |s.received| && s.received[n].data != []
    ensures Genuine(s, PacketOf(s, n))
  {
  }

  lemma OrderedStep(s: State, e: Event)
    requires Ordered(s)
    ensures Ordered(Step(s, e))
  {
    hide Genuine, Increasing, PacketOf;
    var s' := Step(s, e);
    forall p | p in Accepted(s)
      ensures Genuine(s', p)
    {
      StaysGenuine(s, s', p);
    }
    match e
    case Read(pick) =>
      TakeKeepsAccepted(s, pick);
      hide Accepted;
    case Receive(b, pick) =>
      hide Accepted;
      Arrives(s, b, pick);
    case _ =>
      assert Accepted(s') == Accepted(s);
  }

  lemma Arrives(s: State, b: Buffer, pick: bool)
    requires Ordered(s)
    ensures var s' := Offer(s, b, pick);
      && Increasing(Accepted(s'))
      && forall p :: p in Accepted(s') ==> p in Accepted(s) || Genuine(s', p)
  {
    hide Genuine, Increasing, PacketOf;
    var s' := Offer(s, b, pick);
    if |s'.queue| > |s.queue| {
      var t := s.(received := s.received + [b]);
      var p := PacketOf(t, |s.received|);
      OfferedIsGenuine(t, |s.received|);
      StaysGenuine(t, s', p);
      assert Accepted(s') == Accepted(s) + [p];
      NumbersBelow(s);
      NumberOf(t, |s.received|);
      AppendIncreases(Accepted(s), p);
    } else {
      assert Accepted(s') == Accepted(s);
    }
  }

  lemma NumberOf(s: State, n: nat)
    requires n < |s.received|
    ensures PacketOf(s, n).number == n
  {
  }

  lemma NumbersBelow(s: State)
    requires Ordered(s)
    ensures forall p :: p in Accepted(s) ==> p.number < |s.received|
  {
    hide Accepted, Increasing;
  }

  lemma AppendIncreases(ps: seq<Packet>, p: Packet)
    requires Increasing(ps) && forall q :: q in ps ==> q.number < p.number
    ensures Increasing(ps + [p])
  {
    var r := ps + [p];
    forall i, j | 0 <= i < j < |r|
      ensures r[i].number < r[j].number
    {
      assert ps[i] in ps && r[i] == ps[i];
    }
  }

  lemma TimesAppend(ps: seq<Packet>, p: Packet, n: nat)
    ensures Times(ps + [p], n) == Times(ps, n) + if p.number == n then 1 else 0
  {
    assert (ps + [p])[..|ps|] == ps;
  }

  lemma {:induction false} TimesHead(ps: seq<Packet>, n: nat)
    requires ps != []
    ensures Times(ps, n) == (if ps[0].number == n then 1 else 0) + Times(ps[1..], n)
  {
    var last := |ps| - 1;
    if last > 0 {
      TimesHead(ps[..last], n);
      assert ps[1..][..last - 1] == ps[..last][1..];
    }
  }

  lemma FatesStep(s: State, e: Event, n: nat)
    requires Ordered(s) && Conserved(s)
    ensures var s' := Step(s, e);
            Fates(s', n) == if n < |s'.received| && s'.received[n].data != [] then 1 else 0
  {
    hide Times, Ordered, PacketOf;
    assert Fates(s, n) == if n < |s.received| && s.received[n].data != [] then 1 else 0;
    match e
    case Read(pick) =>
      if !(s.queue == [] || (s.done && pick)) {
        TimesHead(s.queue, n);
        TimesAppend(s.delivered, s.queue[0], n);
      }
    case Receive(b, pick) =>
      NumberOf(s.(received := s.received + [b]), |s.received|);
      TimesAppend(s.queue, PacketOf(s.(received := s.received + [b]), |s.received|), n);
    case _ =>
  }

  /** The queue never holds more than 16 packets; the packets delivered so far and then those
      queued are, in the order received, distinct non-empty received buffers with their sources;
      and every non-empty buffer received is exactly once delivered, queued or released. */
  lemma {:induction false} QueueInvariant(dest: Destination, es: seq<Event>)
    ensures Ordered(RunFrom(Initial(dest), es)) && Conserved(RunFrom(Initial(dest), es))
  {
    if es != [] {
      var s, e := RunFrom(Initial(dest), es[..|es| - 1]), es[|es| - 1];
      QueueInvariant(dest, es[..|es| - 1]);
      hide Ordered, Step, Fates;
      OrderedStep(s, e);
      forall n: nat
        ensures Fates(Step(s, e), n) == if n < |Step(s, e).received| && Step(s, e).received[n].data != [] then 1 else 0
      {
        FatesStep(s, e, n);
      }
    }
  }

  /** Where the packets come from, over every run: no packet has another's source. */
  lemma SourcesInRun(dest: Destination, es: seq<Event>, p: Packet)
    requires p in RunFrom(Initial(dest), es).delivered || p in RunFrom(Initial(dest), es).queue
    ensures var s := RunFrom(Initial(dest), es);
      && s.dest == dest && p.number < |s.received| && p.payload == s.received[p.number]
      && (p.payload.endpoint == None && dest.address.Ip? ==> p.source == dest)
      && (p.payload.endpoint == None && dest.address.Domain? ==> p.source == Destination(Ip([0, 0, 0, 0]), dest.port))
      && forall from: Destination :: p.payload.endpoint == Some(from) ==>
           p.source == if from.address.Ip? then from else Destination(Ip([0, 0, 0, 0]), from.port)
  {
    hide RunFrom;
    QueueInvariant(dest, es);
    DestinationStays(Initial(dest), es);
    assert p in Accepted(RunFrom(Initial(dest), es));
  }

  lemma {:induction false} DestinationStays(s: State, es: seq<Event>)
    ensures RunFrom(s, es).dest == s.dest
  {
    if es != [] {
      DestinationStays(s, es[..|es| - 1]);
    }
  }

  /** This operation drops the n-th buffer received: the queue is full, or the context is
      done and the choice fell that way. */
  predicate Drops(s: State, e: Event, n: nat) {
    && e.Receive? && e.buffer.data != [] && |s.received| == n
    && (|s.queue| >= 16 || (s.done && !e.pick))
  }

  ghost predicate DroppedAt(s: State, es: seq<Event>, i: nat, n: nat) {
    i < |es| && Drops(RunFrom(s, es[..i]), es[i], n)
  }

  lemma DropStep(s: State, e: Event, n: nat)
    ensures n in Step(s, e).released <==> n in s.released || Drops(s, e, n)
  {
  }

  /** In every run the buffers released are exactly those that arrived to a full queue, or to a
      done context when the choice fell that way. */
  lemma {:induction false} ReleasedExactly(dest: Destination, es: seq<Event>, n: nat)
    ensures n in RunFrom(Initial(dest), es).released <==> exists i: nat :: DroppedAt(Initial(dest), es, i, n)
  {
    if es != [] {
      hide Step, Drops;
      var k := |es| - 1;
      var pre, s0 := es[..k], Initial(dest);
      assert forall i :: 0 <= i <= k ==> pre[..i] == es[..i];
      ReleasedExactly(dest, pre, n);
      DropStep(RunFrom(s0, pre), es[k], n);
      if Drops(RunFrom(s0, pre), es[k], n) {
        assert DroppedAt(s0, es, k, n);
      }
      if exists i: nat :: DroppedAt(s0, pre, i, n) {
        var i: nat :| DroppedAt(s0, pre, i, n);
        assert DroppedAt(s0, es, i, n);
      }
      if exists i: nat :: DroppedAt(s0, es, i, n) {
        var i: nat :| DroppedAt(s0, es, i, n);
        assert i < k ==> DroppedAt(s0, pre, i, n);
      }
    }
  }

  /** Nothing is dropped in a run in which the context is live and the queue has room at every
      arrival. */
  predicate HadRoom(s: State, es: seq<Event>) {
    && (forall i :: 0 <= i < |es| ==> !es[i].Cancel? && !es[i].Close?)
    && (forall i :: 0 <= i < |es| && es[i].Receive? ==> |RunFrom(s, es[..i]).queue| < 16)
  }

  lemma {:induction false} NothingDropped(dest: Destination, es: seq<Event>)
    requires HadRoom(Initial(dest), es)
    ensures RunFrom(Initial(dest), es).released == [] && !RunFrom(Initial(dest), es).done
  {
    if es != [] {
      var pre := es[..|es| - 1];
      assert forall i :: 0 <= i <= |pre| ==> pre[..i] == es[..i];
      NothingDropped(dest, pre);
    }
  }

  // ---- The connection ----

  datatype ReadResult = Buffers(mb: seq<Buffer>) | Failed(mb: seq<Buffer>)

  /** What the reader and the timer do before an operation of the loop, and the loop's choice. */
  datatype Turn = Turn(others: seq<Event>, pick: bool)

  predicate Foreign(es: seq<Event>) {
    forall i :: 0 <= i < |es| ==> es[i].Read? || es[i].Cancel?
  }

  lemma {:induction false} RunAppend(s: State, es: seq<Event>, more: seq<Event>)
    ensures RunFrom(s, es + more) == RunFrom(RunFrom(s, es), more)
  {
    hide Step;
    if more == [] {
      assert es + more == es;
    } else {
      RunAppend(s, es, more[..|more| - 1]);
      assert (es + more)[..|es + more| - 1] == es + more[..|more| - 1];
    }
  }

  lemma RunOne(s: State, e: Event)
    ensures RunFrom(s, [e]) == Step(s, e)
  {
    assert [e][..0] == [];
  }

  class DispatcherConn {
    const dest: Destination
    var cache: seq<Packet>
    var done: bool
    var closed: bool
    var received: seq<Buffer>
    var delivered: seq<Packet>
    var released: seq<nat>

    ghost function Now(): State
      reads this
    {
      State(dest, received, cache, delivered, released, done, closed)
    }

    constructor (dest: Destination)
      ensures Now() == Initial(dest)
    {
      this.dest, cache, done, closed := dest, [], false, false;
      received, delivered, released := [], [], [];
    }

    /** The body of the receive loop for one buffer. */
    method Input(buffer: Buffer, pick: bool)
      modifies this
      ensures Now() == Step(old(Now()), Receive(buffer, pick))
      ensures cache == old(cache) || |cache| == |old(cache)| + 1 <= 16
      ensures |cache| > |old(cache)| ==>
        var p := cache[|old(cache)|];
        && cache == old(cache) + [p] && p.number == |old(received)| && p.payload == buffer
        && (buffer.endpoint == None ==>
              p.source == if dest.address.Ip? then dest else Destination(Ip([0, 0, 0, 0]), dest.port))
        && forall from: Destination :: buffer.endpoint == Some(from) ==>
             p.source == if from.address.Ip? then from else Destination(Ip([0, 0, 0, 0]), from.port)
      ensures buffer.data != [] && |old(cache)| < 16 && !old(done) ==> |cache| > |old(cache)|
    {
      var number := |received|;
      received := received + [buffer];
      if |buffer.data| <= 0 {
        return;
      }
      var source;
      if buffer.endpoint == None {
        source := dest;
      } else {
        source := buffer.endpoint.value;
      }
      if source.address.Domain? {
        source := source.(address := ANY_IP);
      }
      if |cache| < CAPACITY && (!done || pick) {
        cache := cache + [Packet(number, buffer, source)];
        return;
      }
      released := released + [number];
    }

    /** The next packet, or None at the end of the stream or, when nothing is queued and the
        context is live, while the reader blocks. */
    method ReadFrom(pick: bool) returns (packet: Option<Packet>)
      modifies this
      ensures Now() == Step(old(Now()), Read(pick))
      ensures packet == if old(cache) == [] || (old(done) && pick) then None else Some(old(cache)[0])
      ensures old(Ordered(Now())) ==>
        forall p :: packet == Some(p) ==>
          && p.number < |received| && p.payload == received[p.number] && p.payload.data != []
          && (p.payload.endpoint == None ==>
                p.source == if dest.address.Ip? then dest else Destination(Ip([0, 0, 0, 0]), dest.port))
          && forall from: Destination :: p.payload.endpoint == Some(from) ==>
               p.source == if from.address.Ip? then from else Destination(Ip([0, 0, 0, 0]), from.port)
    {
      assert cache != [] && Ordered(Now()) ==> cache[0] in Accepted(Now());

      if cache == [] || (done && pick) {
        return None;
      }
      packet := Some(cache[0]);
      delivered := delivered + [cache[0]];
      cache := cache[1..];
    }

    method CloseConn()
      requires closed ==> done
      modifies this
      ensures Now() == Step(old(Now()), Close)
    {
      if closed {
        return;
      }
      closed := true;
      done := true;
    }

    /** What other goroutines do between two operations of the loop. */
    method Interfere(others: seq<Event>)
      requires Foreign(others)
      modifies this
      ensures Now() == RunFrom(old(Now()), others)
    {
      var i := 0;
      while i < |others|
        invariant i <= |others|
        invariant Now() == RunFrom(old(Now()), others[..i])
      {
        assert others[..i + 1][..i] == others[..i];
        match others[i] {
          case Read(pick) => var _ := ReadFrom(pick);
          case Cancel => done := true;
        }
        i := i + 1;
      }
      assert others[..|others|] == others;
    }

    /** The loop over the buffers of one read, with the others' operations in between. */
    method InputAll(mb: seq<Buffer>, turns: seq<Turn>) returns (ghost es: seq<Event>)
      requires |turns| == |mb| && forall i :: 0 <= i < |turns| ==> Foreign(turns[i].others)
      modifies this
      ensures Now() == RunFrom(old(Now()), es)
      ensures received == old(received) + mb
      ensures closed == old(closed) && (old(done) ==> done)
    {
      hide Step, RunFrom;
      es := [];
      RunNone(Now());
      var i := 0;
      while i < |mb|
        invariant i <= |mb|
        invariant Now() == RunFrom(old(Now()), es)
        invariant received == old(received) + mb[..i]
        invariant closed == old(closed) && (old(done) ==> done)
      {
        ghost var before := Now();
        Interfere(turns[i].others);
        ghost var middle := Now();
        Input(mb[i], turns[i].pick);
        ghost var here := turns[i].others + [Receive(mb[i], turns[i].pick)];
        OneTurn(before, turns[i].others, Receive(mb[i], turns[i].pick));
        RunAppend(old(Now()), es, here);
        es := es + here;
        assert mb[..i + 1] == mb[..i] + [mb[i]];
        i := i + 1;
      }
      assert mb[..|mb|] == mb;
    }

    /** The receive loop over the results of its reads, as far as those go. It ends, and closes
        the connection, when it sees the context done or a read fails; the buffers of a failed
        read are released. Every other read's buffers are received, in order. */
    method HandleInput(input: seq<ReadResult>, checks: seq<seq<Event>>, turns: seq<seq<Turn>>)
      returns (used: nat, failed: seq<Buffer>, ghost es: seq<Event>)
      requires closed ==> done
      requires |checks| == |turns| == |input|
      requires forall k :: 0 <= k < |input| ==>
        && Foreign(checks[k]) && |turns[k]| == |input[k].mb|
        && forall i :: 0 <= i < |turns[k]| ==> Foreign(turns[k][i].others)
      modifies this
      ensures Now() == RunFrom(old(Now()), es)
      ensures used <= |input| && (forall k :: 0 <= k < used ==> input[k].Buffers?)
      ensures received == old(received) + Concat(input[..used])
      ensures used < |input| ==> closed && done
      ensures failed != [] ==> used < |input| && input[used] == Failed(failed)
      ensures used < |input| && input[used].Buffers? ==> es != [] && RunFrom(old(Now()), es[..|es| - 1]).done
    {
      hide Step, RunFrom, Concat;
      used, failed, es := 0, [], [];
      RunNone(Now());
      ConcatNone();
      assert input[..0] == [];
      while used < |input|
        invariant used <= |input| && (forall k :: 0 <= k < used ==> input[k].Buffers?)
        invariant failed == [] && (closed ==> done)
        invariant Now() == RunFrom(old(Now()), es)
        invariant received == old(received) + Concat(input[..used])
      {
        ghost var before := Now();
        Interfere(checks[used]);
        InterfereKeeps(before, checks[used]);
        RunAppend(old(Now()), es, checks[used]);
        es := es + checks[used];
        if done {
          ghost var now := Now();
          CloseConn();
          RunOne(now, Close);
          RunAppend(old(Now()), es, [Close]);
          ClosedIs(now);
          assert (es + [Close])[..|es|] == es;
          es := es + [Close];
          return;
        }
        if input[used].Failed? {
          failed := input[used].mb;
          ghost var now := Now();
          CloseConn();
          RunOne(now, Close);
          RunAppend(old(Now()), es, [Close]);
          ClosedIs(now);
          es := es + [Close];
          return;
        }
        ghost var more := InputAll(input[used].mb, turns[used]);
        RunAppend(old(Now()), es, more);
        es := es + more;
        ConcatNext(input, used);
        used := used + 1;
      }
    }
  }

  /** The buffers of some reads, in order. */
  function Concat(input: seq<ReadResult>): seq<Buffer> {
    if input == [] then [] else Concat(input[..|input| - 1]) + input[|input| - 1].mb
  }

  lemma ConcatNone()
    ensures Concat([]) == []
  {
  }

  lemma ConcatNext(input: seq<ReadResult>, k: nat)
    requires k < |input|
    ensures Concat(input[..k + 1]) == Concat(input[..k]) + input[k].mb
  {
    assert input[..k + 1][..k] == input[..k];
  }

  lemma RunNone(s: State)
    ensures RunFrom(s, []) == s
  {
  }

  lemma ClosedIs(s: State)
    ensures Step(s, Close) == s.(done := true, closed := true)
  {
  }

  lemma OneTurn(s: State, others: seq<Event>, e: Event)
    requires Foreign(others) && e.Receive?
    ensures RunFrom(s, others + [e]) == Step(RunFrom(s, others), e)
    ensures RunFrom(s, others + [e]).received == s.received + [e.buffer]
    ensures RunFrom(s, others + [e]).closed == s.closed && (s.done ==> RunFrom(s, others + [e]).done)
  {
    hide RunFrom;
    RunAppend(s, others, [e]);
    RunOne(RunFrom(s, others), e);
    InterfereKeeps(s, others);
  }

  lemma {:induction false} InterfereKeeps(s: State, others: seq<Event>)
    requires Foreign(others)
    ensures var t := RunFrom(s, others); t.received == s.received && t.closed == s.closed && (s.done ==> t.done)
  {
    if others != [] {
      InterfereKeeps(s, others[..|others| - 1]);
    }
  }
}
