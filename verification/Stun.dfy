/** NAT behaviour discovery (stun/stun.go; sections 4.3 and 4.4 of RFC 5780) against a NAT with
    a mapping table and filter state, a compliant server, and a network that may delay any
    response without end, deliver an earlier one instead, or break. */
module Stun {
  import opened Bytes
  import BufBuffer

  /** An IP address and a port. */
  datatype Address = Address(ip: int, port: int)

  /** How a NAT distinguishes destinations, from the most to the least permissive. */
  datatype Class = EndpointIndependent | AddressDependent | AddressAndPortDependent

  // The results of the tests.
  const NO_RESULT := 0
  const NO_NAT := 1
  const ENDPOINT_INDEPENDENT := 2
  const ADDRESS_DEPENDENT := 3
  const ADDRESS_AND_PORT_DEPENDENT := 4

  function Number(c: Class): int {
    match c
    case EndpointIndependent => ENDPOINT_INDEPENDENT
    case AddressDependent => ADDRESS_DEPENDENT
    case AddressAndPortDependent => ADDRESS_AND_PORT_DEPENDENT
  }

  /** The class that a result stands for. */
  function ClassOf(r: int): Option<Class> {
    match r
    case 2 => Some(EndpointIndependent)
    case 3 => Some(AddressDependent)
    case 4 => Some(AddressAndPortDependent)
    case _ => None
  }

  /** Classes and results correspond, in order. */
  lemma NumberIs(c: Class, r: int)
    ensures r == Number(c) <==> ClassOf(r) == Some(c)
    ensures Number(c) <= r <= 4 <==>
      && ClassOf(r).Some?
      && (c.AddressDependent? ==> ClassOf(r).value != EndpointIndependent)
      && (c.AddressAndPortDependent? ==> ClassOf(r).value == AddressAndPortDependent)
  {
  }

  // ---- The NAT ----

  /** What a mapping is for: an inside endpoint and as much of the destination as matters. */
  datatype MapKey = MapKey(local: Address, ip: Option<int>, port: Option<int>)

  datatype Nat = Nat(
    mapping: Class, filtering: Class,
    table: map<MapKey, Address>,             // the outside endpoint of each mapping
    contacts: set<(Address, Address)>)      // inside endpoint and a destination it has sent to

  function KeyFor(c: Class, local: Address, to: Address): MapKey {
    match c
    case EndpointIndependent => MapKey(local, None, None)
    case AddressDependent => MapKey(local, Some(to.ip), None)
    case AddressAndPortDependent => MapKey(local, Some(to.ip), Some(to.port))
  }

  /** No outside endpoint serves two mappings. */
  ghost predicate Injective(n: Nat) {
    forall k, l :: k in n.table && l in n.table && n.table[k] == n.table[l] ==> k == l
  }

  predicate Contacted(n: Nat, local: Address, ip: int) {
    exists c :: c in n.contacts && c.0 == local && c.1.ip == ip
  }

  /** Whether a packet from a source reaches this inside endpoint (section 5 of RFC 4787). */
  predicate Passes(n: Nat, local: Address, from: Address) {
    match n.filtering
    case EndpointIndependent => true
    case AddressDependent => Contacted(n, local, from.ip)
    case AddressAndPortDependent => (local, from) in n.contacts
  }

  /** Sending: the mapping exists afterwards, and the destination may answer. */
  function Send(n: Nat, local: Address, to: Address, free: Address): Nat {
    var k := KeyFor(n.mapping, local, to);
    n.(table := if k in n.table then n.table else n.table[k := free],
       contacts := n.contacts + {(local, to)})
  }

  lemma {:induction false} AboveAll(used: set<Address>) returns (ip: int)
    ensures forall e :: e in used ==> e.ip < ip
  {
    if used == {} {
      ip := 0;
    } else {
      var x :| x in used;
      ip := AboveAll(used - {x});
      ip := if x.ip < ip then ip else x.ip + 1;
      assert forall e :: e in used ==> e == x || e in used - {x};
    }
  }

  /** Two destinations see the same outside endpoint exactly if they are sent to from the same
      inside endpoint and the class joins them. */
  lemma SeenFrom(n: Nat, local: Address, a: Address, inside: Address, b: Address)
    requires Injective(n) && KeyFor(n.mapping, local, a) in n.table && KeyFor(n.mapping, inside, b) in n.table
    ensures n.table[KeyFor(n.mapping, local, a)] == n.table[KeyFor(n.mapping, inside, b)] <==>
      && local == inside
      && match n.mapping
         case EndpointIndependent => true
         case AddressDependent => a.ip == b.ip
         case AddressAndPortDependent => a == b
  {
  }

  // ---- The server ----

  /** A server on two addresses and two ports; one without OTHER-ADDRESS has `other` None. */
  datatype Server = Server(primary: Address, other: Option<Address>)

  predicate Compliant(s: Server) {
    s.other.Some? ==> s.other.value.ip != s.primary.ip && s.other.value.port != s.primary.port
  }

  datatype Change = ChangeNothing | ChangePort | ChangeBoth

  datatype Message = Message(xorAddr: Option<Address>, otherAddr: Option<Address>, respOrigin: Option<Address>)

  datatype Response = Response(message: Message, from: Address, size: nat)

  function Respond(s: Server, to: Address, change: Change, seen: Address, size: nat): Response {
    var from :=
      if s.other.None? then to
      else
        match change
        case ChangeNothing => to
        case ChangePort => Address(to.ip, s.other.value.port)
        case ChangeBoth => s.other.value;
    Response(Message(Some(seen), s.other, Some(from)), from, size)
  }

  // ---- The network's choices ----

  /** What happens in one round trip: the response comes in time, or too late if at all; an
      earlier response that is still on its way comes instead; or the channel breaks. */
  datatype Outcome = InTime | Late | Earlier(k: nat) | Broken

  /** One round trip, with the size of the response to its request. */
  datatype Turn = Turn(outcome: Outcome, size: nat)

  /** Every response comes in time, and none is longer than the room there is for it, which the
      responses before it leave: the listener's buffer shrinks to each response it reads. */
  predicate Lossless(schedule: seq<Turn>, room: nat) {
    forall i :: 0 <= i < |schedule| ==>
      && schedule[i].outcome.InTime? && schedule[i].size <= room
      && forall j :: i < j < |schedule| ==> schedule[j].size <= schedule[i].size
  }

  /** At least n responses come in time, whatever their sizes. */
  predicate InTimeFor(schedule: seq<Turn>, n: nat) {
    n <= |schedule| && forall i :: 0 <= i < n ==> schedule[i].outcome.InTime?
  }

  /** Mapping tests II and III read what they need: a third response only when the second does
      not settle the class. */
  predicate OtherAddressFits(c: Class, schedule: seq<Turn>, room: nat)
    requires |schedule| >= 2
  {
    schedule[0].size <= room && (c.EndpointIndependent? || schedule[1].size <= schedule[0].size)
  }

  /** Filtering tests II and III read what passes: the second response, or else the third. */
  predicate ChangedFits(shown: int, schedule: seq<Turn>, room: nat)
    requires |schedule| >= 2
  {
    && (shown == ENDPOINT_INDEPENDENT ==> schedule[0].size <= room)
    && (shown == ADDRESS_DEPENDENT ==> schedule[1].size <= room)
  }

  lemma LosslessNext(schedule: seq<Turn>, room: nat)
    requires Lossless(schedule, room)
    ensures schedule != [] ==>
      && schedule[0].outcome.InTime? && schedule[0].size <= room
      && Lossless(schedule[1..], room) && Lossless(schedule[1..], schedule[0].size)
    ensures Lossless([], room)
  {
    if schedule != [] {
      assert forall i :: 0 <= i < |schedule| - 1 ==> schedule[1..][i] == schedule[i + 1];
    }
  }

  datatype Error = TimedOut | BrokenChannel | NoOtherAddress | ConnectFailed

  // ---- What a test should find ----

  /** The filtering class as far as packets from the server's endpoints show it. */
  ghost function Shown(n: Nat, local: Address, s: Server): int
    requires s.other.Some?
  {
    if Passes(n, local, s.other.value) then ENDPOINT_INDEPENDENT
    else if Passes(n, local, Address(s.primary.ip, s.other.value.port)) then ADDRESS_DEPENDENT
    else ADDRESS_AND_PORT_DEPENDENT
  }

  /** It shows the NAT's class exactly if the inside endpoint has not sent to where the
      changed responses come from. */
  lemma ShownIsClass(n: Nat, local: Address, s: Server)
    requires s.other.Some? && Compliant(s) && (local, s.primary) in n.contacts
    ensures Shown(n, local, s) == Number(n.filtering) <==>
      match n.filtering
      case EndpointIndependent => true
      case AddressDependent => !Contacted(n, local, s.other.value.ip)
      case AddressAndPortDependent =>
        (local, s.other.value) !in n.contacts && (local, Address(s.primary.ip, s.other.value.port)) !in n.contacts
  {
    assert Contacted(n, local, s.primary.ip) by {
      var c := (local, s.primary);
      assert c in n.contacts && c.0 == local && c.1.ip == s.primary.ip;
    }
  }

  /** A connection through the NAT to the server. */
  class Discovery {
    const server: Server
    var translator: Nat
    var schedule: seq<Turn>
    var local: Address         // the inside endpoint
    var localAddr: Address     // the address the socket reports for itself
    var late: seq<Response>     // responses sent to this connection and not yet received
    var room: nat               // the length of the listener's buffer
    var listening: bool

    ghost predicate Valid()
      reads this
    {
      Compliant(server) && Injective(translator)
    }

    constructor (server: Server, n: Nat)
      requires Compliant(server) && Injective(n)
      ensures Valid() && this.server == server && translator == n
    {
      this.server, translator, schedule := server, n, [];
      local, localAddr, late, room, listening := Address(0, 0), Address(0, 0), [], 0, false;
    }

    /** The NAT's state has only grown, and the inside endpoint's mapping to a destination is there. */
    ghost predicate Sent(before: Nat, to: Address)
      reads this
    {
      && translator.mapping == before.mapping && translator.filtering == before.filtering
      && translator.contacts == before.contacts + {(local, to)}
      && KeyFor(translator.mapping, local, to) in translator.table
      && forall k :: k in before.table ==> k in translator.table && translator.table[k] == before.table[k]
    }

    /** The answer of the server to a request that this connection has sent. */
    ghost function Answer(to: Address, change: Change, size: nat): Response
      reads this
      requires KeyFor(translator.mapping, local, to) in translator.table
    {
      Respond(server, to, change, translator.table[KeyFor(translator.mapping, local, to)], size)
    }

    /** The turn that the next round trip takes. */
    function NextTurn(): Turn
      reads this
    {
      if schedule == [] then Turn(InTime, room) else schedule[0]
    }

    /** The listener reads a response: one that does not fit closes the channel. */
    method Receive(r: Response) returns (resp: Option<Response>, err: Option<Error>)
      requires listening
      modifies this`room, this`listening
      ensures listening == (r.size <= old(room)) && room == if listening then r.size else old(room)
      ensures resp == (if listening then Some(r) else None) && err == (if listening then None else Some(BrokenChannel))
    {
      if r.size > room {
        listening := false;
        return None, Some(BrokenChannel);
      }
      room := r.size;
      return Some(r), None;
    }

    /** A request goes out through the NAT; the server sees it come from some outside endpoint. */
    method Transmit(to: Address) returns (seen: Address)
      requires Valid()
      modifies this`translator
      ensures Valid() && Sent(old(translator), to)
      ensures seen == translator.table[KeyFor(translator.mapping, local, to)]
    {
      ghost var ip := AboveAll(translator.table.Values);
      assert Address(ip, 0) !in translator.table.Values;
      var free: Address :| free !in translator.table.Values;
      translator := Send(translator, local, to, free);
      seen := translator.table[KeyFor(translator.mapping, local, to)];
    }

    /** Sends a request and waits for a response or the timeout. */
    method RoundTrip(to: Address, change: Change) returns (resp: Option<Response>, err: Option<Error>)
      requires Valid()
      modifies this`translator, this`schedule, this`late, this`room, this`listening
      ensures Valid() && Sent(old(translator), to)
      ensures schedule == if old(schedule) == [] then [] else old(schedule)[1..]
      ensures resp.Some? <==> err.None?
      ensures err.Some? ==> err.value == TimedOut || err.value == BrokenChannel
      ensures resp.Some? ==> listening && Passes(translator, local, resp.value.from)
      ensures var answer := Answer(to, change, old(NextTurn()).size);
        && (resp.Some? ==>
              || (resp.value == answer && late == old(late))
              || (resp.value in old(late) && old(NextTurn()).outcome.Earlier?))
        && (err == Some(TimedOut) ==> listening && (late == old(late) || late == old(late) + [answer]))
        && (old(listening) && old(NextTurn()).outcome.InTime? ==>
              && late == old(late)
              && if !Passes(translator, local, answer.from) then
                   resp.None? && err == Some(TimedOut) && listening && room == old(room)
                 else if answer.size > old(room) then err == Some(BrokenChannel)
                 else resp == Some(answer) && listening && room == answer.size)
      ensures Lossless(old(schedule), old(room)) && old(listening) ==>
        var answer := Answer(to, change, old(NextTurn()).size);
        && listening && Lossless(schedule, room) && late == old(late) && err != Some(BrokenChannel)
        && resp == if Passes(translator, local, answer.from) then Some(answer) else None
    {
      hide Lossless, Injective, KeyFor, Passes;
      if Lossless(schedule, room) {
        LosslessNext(schedule, room);
      }
      var turn := NextTurn();
      schedule := if schedule == [] then [] else schedule[1..];
      var seen := Transmit(to);
      var r := Respond(server, to, change, seen, turn.size);
      if !listening {
        return None, Some(BrokenChannel);
      }
      match turn.outcome {
        case InTime =>
          if Passes(translator, local, r.from) {
            resp, err := Receive(r);
          } else {
            resp, err := None, Some(TimedOut);
          }
        case Late =>
          late := late + [r];
          resp, err := None, Some(TimedOut);
        case Earlier(k) =>
          if k < |late| && Passes(translator, local, late[k].from) {
            var first := late[k];
            late := late[..k] + late[k + 1..] + [r];
            resp, err := Receive(first);
          } else {
            late := late + [r];
            resp, err := None, Some(TimedOut);
          }
        case Broken =>
          resp, err := None, Some(BrokenChannel);
      }
    }

    /** Opens a socket: nothing sent to an earlier one reaches it, and its listener has a whole
        buffer. */
    method Connect(local: Address, localAddr: Address, schedule: seq<Turn>)
      modifies this`local, this`localAddr, this`schedule, this`late, this`room, this`listening
      ensures this.local == local && this.localAddr == localAddr && this.schedule == schedule
      ensures late == [] && room == 2048 && listening
    {
      this.local, this.localAddr, this.schedule := local, localAddr, schedule;
      late, room, listening := [], BufBuffer.SIZE, true;
    }

    /** The NAT keeps its mappings. */
    ghost predicate Grown(before: Nat)
      reads this
    {
      && translator.mapping == before.mapping && translator.filtering == before.filtering
      && forall k :: k in before.table ==> k in translator.table && translator.table[k] == before.table[k]
    }

    /** What mapping tests that lose nothing find from an inside endpoint whose socket reports
        this address. */
    ghost function MappingClass(local: Address, localAddr: Address): int
      reads this
      requires KeyFor(translator.mapping, local, server.primary) in translator.table
    {
      if translator.table[KeyFor(translator.mapping, local, server.primary)] == localAddr then NO_NAT
      else Number(translator.mapping)
    }

    /** Determines the mapping behaviour. Whatever the network does, the result is at least as
        restrictive as the NAT. With every response in time the tests come to a result exactly if
        each response they read fits what the one before it left, and then it is the NAT's class.
        "No NAT" is found exactly when the outside endpoint is the socket's own address. */
    method MappingTests() returns (r: int, err: Option<Error>)
      requires Valid() && late == [] && listening
      modifies this`translator, this`schedule, this`late, this`room, this`listening
      ensures Valid() && Grown(old(translator))
      ensures forall c :: c in translator.contacts ==> c in old(translator.contacts) || c.0 == local
      ensures Lossless(old(schedule), old(room)) ==> Lossless(schedule, room)
      ensures KeyFor(translator.mapping, local, server.primary) in translator.table
      ensures err.Some? ==> r == NO_RESULT
      ensures err.None? ==> server.other.Some? && MappingClass(local, localAddr) <= r <= ADDRESS_AND_PORT_DEPENDENT
      ensures err.None? ==>
        && (r == 1 <==> translator.table[KeyFor(translator.mapping, local, server.primary)] == localAddr)
        && (r == 1 || ClassOf(r).Some?)
      ensures Lossless(old(schedule), old(room)) && server.other.Some? ==>
        err.None? && r == MappingClass(local, localAddr)
      ensures server.other.None? ==> err.Some?
      ensures InTimeFor(old(schedule), 3) && server.other.Some? ==>
        && (err.None? <==>
              && old(schedule)[0].size <= old(room)
              && (MappingClass(local, localAddr) == NO_NAT
                  || OtherAddressFits(translator.mapping, old(schedule)[1..], old(schedule)[0].size)))
        && (err.None? ==> r == MappingClass(local, localAddr))
    {
      // Test I: regular binding request
      var resp;
      resp, err := RoundTrip(server.primary, ChangeNothing);
      if err.Some? {
        return NO_RESULT, err;
      }
      var resps := resp.value.message;
      if resps.xorAddr.None? || resps.otherAddr.None? {
        return NO_RESULT, Some(NoOtherAddress);
      }
      var otherAddr := resps.otherAddr.value;
      if resps.xorAddr.value == localAddr {
        return NO_NAT, None;
      }

      r, err := OtherAddressTests(resps, otherAddr);
    }

    /** Mapping tests II and III, after test I with a NAT. */
    method OtherAddressTests(first: Message, otherAddr: Address) returns (r: int, err: Option<Error>)
      requires Valid() && late == [] && listening
      requires server.other == Some(otherAddr)
      requires KeyFor(translator.mapping, local, server.primary) in translator.table
      requires first == Answer(server.primary, ChangeNothing, room).message
      modifies this`translator, this`schedule, this`late, this`room, this`listening
      ensures Valid() && Grown(old(translator))
      ensures forall c :: c in translator.contacts ==> c in old(translator.contacts) || c.0 == local
      ensures Lossless(old(schedule), old(room)) ==> Lossless(schedule, room)
      ensures err.Some? ==> r == NO_RESULT
      ensures err.None? ==> Number(translator.mapping) <= r <= ADDRESS_AND_PORT_DEPENDENT
      ensures Lossless(old(schedule), old(room)) ==> err.None? && r == Number(translator.mapping)
      ensures InTimeFor(old(schedule), 2) ==>
        && (err.None? <==> OtherAddressFits(translator.mapping, old(schedule), old(room)))
        && (err.None? ==> r == Number(translator.mapping))
    {
      hide KeyFor, Injective;
      var resps := first;
      var resp;

      // Test II: the other address but the primary port
      var oaddr := Address(otherAddr.ip, server.primary.port);
      resp, err := RoundTrip(oaddr, ChangeNothing);
      SeenFrom(translator, local, server.primary, local, oaddr);
      if err.Some? {
        if err.value != TimedOut {
          return NO_RESULT, err;
        }
      } else {
        var resps2 := resp.value.message;
        if resps2.respOrigin != Some(oaddr) {
          return ADDRESS_AND_PORT_DEPENDENT, None;
        }
        if resps2.xorAddr == resps.xorAddr {
          return ENDPOINT_INDEPENDENT, None;
        }
        resps := resps2;
      }

      // Test III: the other address and port
      resp, err := RoundTrip(otherAddr, ChangeNothing);
      SeenFrom(translator, local, server.primary, local, otherAddr);
      SeenFrom(translator, local, oaddr, local, otherAddr);
      if err.Some? {
        if err.value != TimedOut {
          return NO_RESULT, err;
        }
      } else {
        var resps3 := resp.value.message;
        if resps3.xorAddr == resps.xorAddr {
          return ADDRESS_DEPENDENT, None;
        }
      }
      return ADDRESS_AND_PORT_DEPENDENT, None;
    }

    /** Determines the filtering behaviour. The result is at least as restrictive as what the
        server's endpoints show of the NAT. With every response in time there is a result exactly
        if each response that passes the NAT fits, and then it is just that. */
    method FilteringTests() returns (r: int, err: Option<Error>)
      requires Valid() && late == [] && listening
      modifies this`translator, this`schedule, this`late, this`room, this`listening
      ensures Valid() && Grown(old(translator))
      ensures translator.contacts == old(translator.contacts) + {(local, server.primary)}
      ensures err.Some? ==> r == NO_RESULT
      ensures err.None? ==> server.other.Some? && Shown(translator, local, server) <= r <= ADDRESS_AND_PORT_DEPENDENT
      ensures Lossless(old(schedule), old(room)) && server.other.Some? ==>
        err.None? && r == Shown(translator, local, server)
      ensures server.other.None? ==> err.Some?
      ensures InTimeFor(old(schedule), 3) && server.other.Some? ==>
        && (err.None? <==>
              && old(schedule)[0].size <= old(room)
              && ChangedFits(Shown(translator, local, server), old(schedule)[1..], old(schedule)[0].size))
        && (err.None? ==> r == Shown(translator, local, server))
    {
      // Test I: regular binding request
      var resp;
      resp, err := RoundTrip(server.primary, ChangeNothing);
      if err.Some? {
        return NO_RESULT, err;
      }
      var resps := resp.value.message;
      if resps.xorAddr.None? || resps.otherAddr.None? {
        return NO_RESULT, Some(NoOtherAddress);
      }

      r, err := ChangedTests();
    }

    /** Filtering tests II and III, after test I. */
    method ChangedTests() returns (r: int, err: Option<Error>)
      requires Valid() && late == [] && listening && server.other.Some?
      requires (local, server.primary) in translator.contacts
      modifies this`translator, this`schedule, this`late, this`room, this`listening
      ensures Valid() && Grown(old(translator)) && translator.contacts == old(translator.contacts)
      ensures err.Some? ==> r == NO_RESULT
      ensures err.None? ==> Shown(translator, local, server) <= r <= ADDRESS_AND_PORT_DEPENDENT
      ensures Lossless(old(schedule), old(room)) ==> err.None? && r == Shown(translator, local, server)
      ensures InTimeFor(old(schedule), 2) ==>
        && (err.None? <==> ChangedFits(Shown(translator, local, server), old(schedule), old(room)))
        && (err.None? ==> r == Shown(translator, local, server))
    {
      hide KeyFor, Injective, Lossless;
      var resp;

      // Test II: request to change both IP and port
      resp, err := RoundTrip(server.primary, ChangeBoth);
      if err.None? {
        if resp.value.from != server.primary {
          return ENDPOINT_INDEPENDENT, None;
        }
      } else if err.value != TimedOut {
        return NO_RESULT, err;
      }

      // Test III: request to change the port only
      resp, err := RoundTrip(server.primary, ChangePort);
      if err.None? {
        if resp.value.from != server.primary {
          return ADDRESS_DEPENDENT, None;
        }
      } else if err.value != TimedOut {
        return NO_RESULT, err;
      }
      return ADDRESS_AND_PORT_DEPENDENT, None;
    }

    /** Both tests, each on a connection of its own. With a second inside endpoint that has sent
        nothing yet, neither result is more permissive than the NAT, whatever is lost. With every
        response in time there are results exactly if every response that is read fits, and then
        both are exact. */
    method Test(local1: Address, addr1: Address, dialled1: bool, schedule1: seq<Turn>,
                local2: Address, addr2: Address, dialled2: bool, schedule2: seq<Turn>)
      returns (natMapping: int, natFiltering: int, err: Option<Error>)
      requires Valid()
      requires local1 != local2 && forall c :: c in translator.contacts ==> c.0 != local2
      modifies this
      ensures Valid() && Grown(old(translator))
      ensures natMapping != NO_RESULT ==>
        && KeyFor(translator.mapping, local1, server.primary) in translator.table
        && MappingClass(local1, addr1) <= natMapping
      ensures natFiltering != NO_RESULT ==> err.None? && Number(translator.filtering) <= natFiltering
      ensures err.None? ==> natMapping != NO_RESULT && natFiltering != NO_RESULT
      ensures dialled1 && dialled2 && server.other.Some? ==>
        Lossless(schedule1, 2048) && Lossless(schedule2, 2048) ==>
        && err.None? && natFiltering == Number(translator.filtering)
        && KeyFor(translator.mapping, local1, server.primary) in translator.table
        && natMapping == MappingClass(local1, addr1)
      ensures !dialled1 || !dialled2 || server.other.None? ==> err.Some?
      ensures dialled1 && dialled2 && server.other.Some? && InTimeFor(schedule1, 3) && InTimeFor(schedule2, 3) ==>
        && KeyFor(translator.mapping, local1, server.primary) in translator.table
        && (err.None? <==>
              && schedule1[0].size <= 2048 && schedule2[0].size <= 2048
              && (MappingClass(local1, addr1) == NO_NAT
                  || OtherAddressFits(translator.mapping, schedule1[1..], schedule1[0].size))
              && ChangedFits(Number(translator.filtering), schedule2[1..], schedule2[0].size))
        && (err.None? ==> natMapping == MappingClass(local1, addr1) && natFiltering == Number(translator.filtering))
      ensures err.None? ==>
        && KeyFor(translator.mapping, local1, server.primary) in translator.table
        && (natMapping == 1 <==> translator.table[KeyFor(translator.mapping, local1, server.primary)] == addr1)
        && (natMapping == 1 || ClassOf(natMapping).Some?) && ClassOf(natFiltering).Some?
      ensures err.None? && dialled1 && dialled2 && InTimeFor(schedule1, 3) && InTimeFor(schedule2, 3) ==>
        && (natMapping == 1 || ClassOf(natMapping) == Some(translator.mapping))
        && ClassOf(natFiltering) == Some(translator.filtering)
    {
      natMapping, natFiltering, err := NO_RESULT, NO_RESULT, None;
      if dialled1 {
        Connect(local1, addr1, schedule1);
        natMapping, err := MappingTests();
      } else {
        err := Some(ConnectFailed);
      }
      if err.None? {
        if dialled2 {
          Connect(local2, addr2, schedule2);
          natFiltering, err := FilteringTests();
          if server.other.Some? {
            ShownIsClass(translator, local2, server);
            assert forall c :: c in translator.contacts && c.0 == local2 ==> c == (local2, server.primary);
          }
        } else {
          err := Some(ConnectFailed);
        }
      }
    }
  }
}
