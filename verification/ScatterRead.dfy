/** The scatter-read buffer of the gVisor endpoint: packets are read into a row of buffers
    of fixed sizes; the buffers a packet fills are handed up the stack and replaced before
    the next read, the others wait. */
module ScatterRead {
  import opened Bytes

  const BUFFER_SIZES: seq<nat> := [128, 256, 256, 512, 1024, 2048, 4096, 8192, 16384, 32768]

  /** The first `len` bytes of a buffer. */
  datatype View = View(mem: array<Byte>, len: nat)
  {
    ghost predicate Valid() {
      len <= mem.Length
    }
  }

  /** Total size of the first `k` buffers. */
  function Offset(sizes: seq<nat>, k: nat): (n: nat)
    requires k <= |sizes|
  {
    if k == 0 then 0 else Offset(sizes, k - 1) + sizes[k - 1]
  }

  /** How much of a packet of `n` bytes lies in the first `k` buffers. */
  function Cut(sizes: seq<nat>, n: nat, k: nat): (c: nat)
    requires k <= |sizes|
    ensures c <= n
  {
    if Offset(sizes, k) < n then Offset(sizes, k) else n
  }

  /** How much of the packet lies in buffer `k`. */
  function Span(sizes: seq<nat>, n: nat, k: nat): int
    requires k < |sizes|
  {
    Cut(sizes, n, k + 1) - Cut(sizes, n, k)
  }

  lemma CutStep(sizes: seq<nat>, n: nat, k: nat)
    requires k < |sizes|
    ensures Offset(sizes, k + 1) == Offset(sizes, k) + sizes[k]
    ensures Cut(sizes, n, k) <= Cut(sizes, n, k + 1) <= Cut(sizes, n, k) + sizes[k]
    ensures Cut(sizes, n, 0) == 0
  {
  }

  lemma SpansFit(sizes: seq<nat>, n: nat)
    ensures forall k :: 0 <= k < |sizes| ==> 0 <= Span(sizes, n, k) <= sizes[k]
  {
    forall k | 0 <= k < |sizes|
      ensures 0 <= Span(sizes, n, k) <= sizes[k]
    {
      CutStep(sizes, n, k);
    }
  }

  lemma {:induction false} OffsetMonotone(sizes: seq<nat>, i: nat, j: nat)
    requires i <= j <= |sizes|
    ensures Offset(sizes, i) <= Offset(sizes, j)
    decreases j - i
  {
    if i < j {
      OffsetMonotone(sizes, i, j - 1);
    }
  }

  /** No shorter prefix of the row is long enough. */
  lemma OffsetFewest(sizes: seq<nat>, m: nat, n: nat)
    requires 1 <= m <= |sizes| && Offset(sizes, m - 1) < n
    ensures forall k :: 0 <= k <= |sizes| && Offset(sizes, k) >= n ==> m <= k
  {
    forall k | 0 <= k < m
      ensures Offset(sizes, k) < n
    {
      OffsetMonotone(sizes, k, m - 1);
    }
  }

  /** A packet that ends in buffer `i` fills the buffers before it. */
  lemma SpanOf(sizes: seq<nat>, n: nat, i: nat, k: nat)
    requires k <= i < |sizes| && Offset(sizes, i) < n <= Offset(sizes, i + 1)
    ensures Span(sizes, n, k) == if k < i then sizes[k] else n - Offset(sizes, i)
  {
    OffsetMonotone(sizes, if k < i then k + 1 else k, i);
  }

  /** The configured row takes any packet of up to 65664 bytes. */
  lemma ConfiguredTotal()
    ensures Offset(BUFFER_SIZES, |BUFFER_SIZES|) == 65664
  {
    assert Offset(BUFFER_SIZES, 2) == 384;
    assert Offset(BUFFER_SIZES, 4) == 1152;
    assert Offset(BUFFER_SIZES, 6) == 4224;
    assert Offset(BUFFER_SIZES, 8) == 16512;
  }

  /** The buffers of a list of views. */
  function Mems(vs: seq<View>): set<array<Byte>> {
    set i | 0 <= i < |vs| :: vs[i].mem
  }

  lemma NothingHanded()
    ensures Mems([]) == {}
  {
  }

  /** Buffers at later places are none of the first ones. */
  lemma RestNotInMems(vs: seq<View>, row: seq<Option<View>>, place: map<array<Byte>, nat>)
    requires |vs| <= |row| && forall k :: 0 <= k < |row| ==> row[k].Some?
    requires forall k :: 0 <= k < |row| ==> row[k].value.mem in place && place[row[k].value.mem] == k
    requires forall k :: 0 <= k < |vs| ==> vs[k].mem == row[k].value.mem
    ensures forall k :: |vs| <= k < |row| ==> row[k].value.mem !in Mems(vs)
  {
  }

  /** The bytes of a list of views, in order. */
  ghost function Gathered(vs: seq<View>): seq<Byte>
    requires forall i :: 0 <= i < |vs| ==> vs[i].Valid()
    reads Mems(vs)
  {
    if vs == [] then []
    else
      var last := vs[|vs| - 1];
      assert last.Valid();
      Gathered(vs[..|vs| - 1]) + last.mem[..last.len]
  }

  /** The buffer holds the packet's part that lies in buffer `k` of the row. */
  ghost predicate Holds(mem: array<Byte>, data: seq<Byte>, sizes: seq<nat>, k: nat)
    requires k < |sizes|
    reads mem
  {
    var lo, hi := Cut(sizes, |data|, k), Cut(sizes, |data|, k + 1);
    lo <= hi && hi - lo <= mem.Length && mem[..hi - lo] == data[lo..hi]
  }

  lemma HoldsBytewise(mem: array<Byte>, data: seq<Byte>, sizes: seq<nat>, k: nat)
    requires k < |sizes| && 0 <= Span(sizes, |data|, k) <= mem.Length
    requires forall j :: 0 <= j < Span(sizes, |data|, k) ==> mem[j] == data[Cut(sizes, |data|, k) + j]
    ensures Holds(mem, data, sizes, k)
  {
  }

  /** Views that hold the packet's consecutive stretches hold the packet. */
  lemma {:induction false} GatheredPrefix(vs: seq<View>, sizes: seq<nat>, data: seq<Byte>, k: nat)
    requires k <= |vs| <= |sizes|
    requires forall i :: 0 <= i < |vs| ==>
               && vs[i].Valid() && vs[i].len == Span(sizes, |data|, i)
               && Holds(vs[i].mem, data, sizes, i)
    ensures Gathered(vs[..k]) == data[..Cut(sizes, |data|, k)]
  {
    if k == 0 {
      assert Cut(sizes, |data|, 0) == 0;
    } else {
      hide Cut;
      GatheredPrefix(vs, sizes, data, k - 1);
      CutStep(sizes, |data|, k - 1);
      assert vs[..k][..k - 1] == vs[..k - 1];
      assert Holds(vs[k - 1].mem, data, sizes, k - 1);
    }
  }

  /** The buffers of a row that wait to be filled, each at its place and none of them
      handed on; the `gone` buffers before them were handed on and not replaced. */
  ghost predicate RowOk(sizes: seq<nat>, views: seq<Option<View>>, iovecs: seq<Option<View>>, gone: nat,
                        delivered: set<array<Byte>>, place: map<array<Byte>, nat>)
  {
    && |views| == |iovecs| == |sizes| && gone <= |sizes|
    && (forall i :: 0 <= i < gone ==> views[i].None?)
    && (forall i :: gone <= i < |sizes| ==>
          && views[i].Some? && iovecs[i] == views[i]
          && views[i].value.len == views[i].value.mem.Length == sizes[i]
          && views[i].value.mem !in delivered
          && views[i].value.mem in place && place[views[i].value.mem] == i)
  }

  lemma FullRow(sizes: seq<nat>, views: seq<Option<View>>, iovecs: seq<Option<View>>,
                delivered: set<array<Byte>>, place: map<array<Byte>, nat>)
    requires RowOk(sizes, views, iovecs, 0, delivered, place)
    ensures forall k :: 0 <= k < |sizes| ==>
      && views[k].Some? && views[k].value.len == views[k].value.mem.Length == sizes[k]
      && views[k].value.mem !in delivered && views[k].value.mem in place && place[views[k].value.mem] == k
  {
  }

  /** Handing on a prefix of a full row leaves the rest as it should be. */
  lemma RowPulled(sizes: seq<nat>, views: seq<Option<View>>, views': seq<Option<View>>, iovecs: seq<Option<View>>,
                  delivered: set<array<Byte>>, delivered': set<array<Byte>>, place: map<array<Byte>, nat>, m: nat)
    requires RowOk(sizes, views, iovecs, 0, delivered, place) && m <= |sizes|
    requires |views'| == |views| && forall k :: 0 <= k < |views| ==> views'[k] == if k < m then None else views[k]
    requires forall k :: m <= k < |sizes| ==> views[k].value.mem !in delivered'
    ensures RowOk(sizes, views', iovecs, m, delivered', place)
  {
  }

  class IovecBuffer {
    const sizes: seq<nat>
    /** The buffers waiting to be filled; None is a buffer that was handed on. */
    var views: seq<Option<View>>
    /** What the read call is given. An entry keeps pointing at a buffer handed on until it
        is replaced. */
    var iovecs: seq<Option<View>>
    /** How many buffers were handed on and not replaced yet: a prefix of the row. */
    ghost var gone: nat
    ghost var delivered: set<array<Byte>>
    /** The place of each buffer in the row, so that no buffer has two. */
    ghost var place: map<array<Byte>, nat>

    ghost predicate Valid()
      reads this
      ensures Valid() ==> |views| == |iovecs| == |sizes| && gone <= |sizes|
    {
      RowOk(sizes, views, iovecs, gone, delivered, place)
    }

    ghost function Memory(): set<array<Byte>>
      reads this
    {
      set i | 0 <= i < |views| && views[i].Some? :: views[i].value.mem
    }

    constructor (sizes: seq<nat>)
      ensures Valid() && this.sizes == sizes && delivered == {} && Memory() == {}
    {
      this.sizes := sizes;
      views := seq(|sizes|, _ => None);
      iovecs := seq(|sizes|, _ => None);
      delivered, place, gone := {}, map[], |sizes|;
    }

    /** Replaces the buffers handed on and leaves the others. */
    method NextIovecs()
      requires Valid()
      modifies this`views, this`iovecs, this`place, this`gone
      ensures Valid() && gone == 0 && |views| == |old(views)| == |sizes|
      ensures forall i :: 0 <= i < |sizes| ==> views[i].Some? && views[i].value.mem !in delivered
      ensures forall i :: 0 <= i < |sizes| ==>
                if old(views)[i].Some? then views[i] == old(views)[i] else fresh(views[i].value.mem)
      ensures fresh(Memory() - old(Memory()))
    {
      var i := 0;
      while i < |views| && views[i].None?
        invariant 0 <= i <= gone && gone == old(gone) && |views| == |iovecs| == |sizes|
        invariant forall k :: i <= k < |sizes| ==> views[k] == old(views)[k]
        invariant forall k :: 0 <= k < i ==> views[k].Some? && fresh(views[k].value.mem)
        invariant forall k :: 0 <= k < i || gone <= k < |sizes| ==>
                    && views[k].Some? && iovecs[k] == views[k]
                    && views[k].value.len == views[k].value.mem.Length == sizes[k]
                    && views[k].value.mem !in delivered
                    && views[k].value.mem in place && place[views[k].value.mem] == k
      {
        var mem := new Byte[sizes[i]];
        views := views[i := Some(View(mem, sizes[i]))];
        iovecs := iovecs[i := views[i]];
        place := place[mem := i];
        i := i + 1;
      }
      gone := 0;
    }

    /** The read call: every byte of the packet goes to its position in the iovecs. */
    method Readv(data: seq<Byte>)
      requires Valid() && gone == 0
      modifies Memory()
      ensures forall k :: 0 <= k < |sizes| ==> Holds(views[k].value.mem, data, sizes, k)
    {
      SpansFit(sizes, |data|);
      hide RowOk, Offset, Cut, Span, Holds;
      Scatter(data);
      forall k | 0 <= k < |sizes|
        ensures Holds(views[k].value.mem, data, sizes, k)
      {
        HoldsBytewise(views[k].value.mem, data, sizes, k);
      }
    }

    method Scatter(data: seq<Byte>)
      requires Valid() && gone == 0
      requires forall k :: 0 <= k < |sizes| ==> 0 <= Span(sizes, |data|, k) <= sizes[k]
      modifies Memory()
      ensures forall k :: 0 <= k < |sizes| ==> views[k].Some? && Span(sizes, |data|, k) <= views[k].value.mem.Length
      ensures forall k, j :: 0 <= k < |sizes| && 0 <= j < Span(sizes, |data|, k) ==>
                views[k].value.mem[j] == data[Cut(sizes, |data|, k) + j]
    {
      hide Cut;
      forall k, j | 0 <= k < |iovecs| && 0 <= j < Span(sizes, |data|, k) {
        iovecs[k].value.mem[j] := data[Cut(sizes, |data|, k) + j];
      }
    }

    /** The first buffer up to which the row holds `n` bytes, and how many it holds. */
    method Search(n: nat) returns (i: nat, c: nat)
      requires Valid() && gone == 0 && 1 <= n <= Offset(sizes, |sizes|)
      ensures i < |sizes| && Offset(sizes, i) < n <= Offset(sizes, i + 1) == c == Offset(sizes, i) + sizes[i]
    {
      i, c := 0, 0;
      while i < |views|
        invariant 0 <= i <= |sizes| && c == Offset(sizes, i) < n
      {
        c := c + views[i].value.len;
        if c >= n {
          return;
        }
        i := i + 1;
      }
    }

    /** Hands on the buffers that hold the first `n` bytes: the shortest prefix of the row
        that is long enough, the last one capped. */
    method PullViews(n: nat) returns (vs: seq<View>)
      requires Valid() && gone == 0 && 1 <= n <= Offset(sizes, |sizes|)
      modifies this`views, this`delivered, this`gone
      ensures Valid() && gone == |vs|
      ensures 1 <= |vs| <= |sizes| && Offset(sizes, |vs| - 1) < n <= Offset(sizes, |vs|)
      ensures forall i :: 0 <= i < |vs| ==>
                && vs[i].mem == old(views)[i].value.mem && vs[i].mem !in old(delivered)
                && vs[i].Valid() && vs[i].len == (if i < |vs| - 1 then sizes[i] else n - Offset(sizes, i))
      ensures forall i :: 0 <= i < |vs| ==> vs[i].mem in place && place[vs[i].mem] == i
      ensures forall i :: |vs| <= i < |sizes| ==> views[i] == old(views)[i]
      ensures |views| == |old(views)| && forall i :: 0 <= i < |vs| ==> views[i].None?
      ensures delivered == old(delivered) + Mems(vs)
    {
      hide RowOk, Offset, Mems;
      var i, c := Search(n);
      ghost var row, before := views, delivered;
      FullRow(sizes, views, iovecs, delivered, place);
      vs := Take(i, c - n);
      assert forall k :: 0 <= k < |vs| ==> vs[k].mem == row[k].value.mem && place[vs[k].mem] == k;
      RestNotInMems(vs, row, place);
      delivered := delivered + Mems(vs);
      gone := |vs|;
      RowPulled(sizes, row, views, iovecs, before, delivered, place, |vs|);
    }

    /** Caps buffer `i`, and moves the buffers up to it out of the row. */
    method Take(i: nat, excess: nat) returns (vs: seq<View>)
      requires i < |views| && forall k :: 0 <= k <= i ==> views[k].Some?
      requires excess <= views[i].value.len
      modifies this`views
      ensures |vs| == i + 1 && vs[i] == old(views)[i].value.(len := old(views)[i].value.len - excess)
      ensures forall k :: 0 <= k < i ==> vs[k] == old(views)[k].value
      ensures |views| == |old(views)|
      ensures forall k :: 0 <= k < |views| ==> views[k] == if k <= i then None else old(views)[k]
    {
      var last := views[i].value;
      views := views[i := Some(View(last.mem, last.len - excess))];
      vs := seq(i + 1, k requires 0 <= k <= i < |views| && views[k].Some? reads this => views[k].value);
      views := seq(|views|, k requires 0 <= k < |views| reads this => if k <= i then None else views[k]);
    }

    /** One packet: what is handed on holds exactly the packet's bytes in the fewest
        buffers, none of them handed on before, and no buffer handed on before changes. */
    method Dispatch(data: seq<Byte>) returns (vs: seq<View>)
      requires Valid() && |data| <= Offset(sizes, |sizes|)
      modifies this, Memory()
      ensures Valid() && fresh(Memory() - old(Memory()))
      ensures forall i :: 0 <= i < |vs| ==> vs[i].Valid() && vs[i].mem !in old(delivered)
      ensures forall i, j :: 0 <= i < j < |vs| ==> vs[i].mem != vs[j].mem
      ensures Gathered(vs) == data
      ensures forall k :: 0 <= k <= |sizes| && Offset(sizes, k) >= |data| ==> |vs| <= k
      ensures delivered == old(delivered) + Mems(vs)
      ensures forall mem :: mem in old(delivered) ==> mem[..] == old(mem[..])
    {
      NothingHanded();
      hide RowOk, Offset, Cut, Span, Holds, Mems;
      NextIovecs();
      Readv(data);
      if data == [] {
        return [];
      }
      vs := PullViews(|data|);
      OffsetFewest(sizes, |vs|, |data|);
      forall i | 0 <= i < |vs|
        ensures vs[i].len == Span(sizes, |data|, i)
      {
        SpanOf(sizes, |data|, |vs| - 1, i);
      }
      CutAll(sizes, |data|, |vs|);
      GatheredPrefix(vs, sizes, data, |vs|);
      assert vs[..|vs|] == vs;
    }

    ghost predicate Carries(vs: seq<View>, data: seq<Byte>)
      reads set i | 0 <= i < |vs| :: vs[i].mem
    {
      (forall i :: 0 <= i < |vs| ==> vs[i].Valid()) && Gathered(vs) == data
    }

    /** The dispatch loop up to the first empty read: whatever the later reads do, every
        packet handed on keeps exactly its bytes. */
    method DispatchLoop(packets: seq<seq<Byte>>) returns (out: seq<seq<View>>)
      requires Valid() && forall i :: 0 <= i < |packets| ==> 1 <= |packets[i]| <= Offset(sizes, |sizes|)
      modifies this, Memory()
      ensures Valid() && |out| == |packets|
      ensures forall i :: 0 <= i < |packets| ==> Carries(out[i], packets[i])
    {
      hide RowOk, Offset, Gathered;
      out := [];
      ghost var initial := Memory();
      while |out| < |packets|
        invariant Valid() && |out| <= |packets|
        invariant fresh(Memory() - initial)
        invariant forall i, k :: 0 <= i < |out| && 0 <= k < |out[i]| ==> out[i][k].mem in delivered
        invariant forall i :: 0 <= i < |out| ==> Carries(out[i], packets[i])
      {
        WaitingNotDelivered();
        var vs := Dispatch(packets[|out|]);
        out := out + [vs];
      }
    }

    lemma WaitingNotDelivered()
      requires Valid()
      ensures Memory() !! delivered
    {
    }
  }

  lemma CutAll(sizes: seq<nat>, n: nat, k: nat)
    requires k <= |sizes| && n <= Offset(sizes, k)
    ensures Cut(sizes, n, k) == n
  {
  }
}
