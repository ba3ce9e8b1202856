/** The pooled packet buffer: a fixed array and the window of it that is in use. Memory
    outside the window keeps whatever it held before. */
module BufBuffer {
  import opened Bytes

  const SIZE := 2048

  class Buffer {
    const v: array<Byte>
    var start: nat
    var end: nat

    ghost predicate Valid()
      reads this
    {
      start <= end <= v.Length
    }

    constructor New(size: nat)
      ensures Valid() && v.Length == size && start == end == 0 && fresh(v)
    {
      v := new Byte[size];
      start, end := 0, 0;
    }

    function Len(): nat
      requires Valid()
      reads this
    {
      end - start
    }

    function Bytes(): seq<Byte>
      requires Valid()
      reads this, v
    {
      v[start..end]
    }

    method Clear()
      modifies this
      ensures Valid() && start == end == 0
    {
      start, end := 0, 0;
    }

    method Resize(from: nat, to: nat)
      requires from <= to && start + to <= v.Length
      modifies this
      ensures Valid() && start == old(start) + from && end == old(start) + to
    {
      end := start + to;
      start := start + from;
    }

    method Advance(from: nat)
      requires Valid() && from <= Len()
      modifies this
      ensures Valid() && start == old(start) + from && end == old(end)
    {
      start := start + from;
    }

    /** Lengthens the window by `n` bytes of unknown content; the result is the offset of
        the slice gained. */
    method Extend(n: nat) returns (offset: nat)
      requires Valid() && end + n <= v.Length
      modifies this
      ensures Valid() && start == old(start) && end == old(end) + n && offset == old(end)
    {
      offset := end;
      end := end + n;
    }

    method ExtendCopy(data: seq<Byte>) returns (offset: nat)
      requires Valid() && end + |data| <= v.Length
      modifies this, v
      ensures Valid() && start == old(start) && end == old(end) + |data| && offset == old(end)
      ensures v[offset..end] == data
      ensures v[..offset] == old(v[..end])
      ensures forall k :: end <= k < v.Length ==> v[k] == old(v[k])
    {
      offset := Extend(|data|);
      PutBytes(v, offset, end, 0, data);
      assert SetBytes(old(v[..])[offset..end], 0, data) == data;
    }
  }
}
