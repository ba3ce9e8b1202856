/** Bytes, 16-bit words and big-endian fields inside a packet.

    A packet is an `array<Byte>`; the reading and writing of a field is specified on
    the sequence of the array's contents. Go slices of one packet share its memory, so
    a slice is modelled by the array together with the bounds of the slice. */
module Bytes {

  type Byte = x: int | 0 <= x < 0x100

  type U16 = x: int | 0 <= x < 0x1_0000

  datatype Option<+T> = None | Some(value: T)

  /** The conversion `uint16(n)` of a non-negative int. */
  function Truncate(n: nat): U16 {
    n % 0x1_0000
  }

  /** The conversion `int32(x)`. */
  function ToInt32(x: int): (r: int)
    ensures -0x8000_0000 <= r < 0x8000_0000 && (r - x) % 0x1_0000_0000 == 0
  {
    (x + 0x8000_0000) % 0x1_0000_0000 - 0x8000_0000
  }

  function U16At(s: seq<Byte>, i: nat): U16
    requires i + 2 <= |s|
  {
    (s[i] as int) * 0x100 + s[i + 1]
  }

  function SetU16(s: seq<Byte>, i: nat, v: U16): (r: seq<Byte>)
    requires i + 2 <= |s|
    ensures |r| == |s|
    ensures U16At(r, i) == v
    ensures forall k :: 0 <= k < |s| && k != i && k != i + 1 ==> r[k] == s[k]
  {
    s[i := v / 0x100][i + 1 := v % 0x100]
  }

  function SetBytes(s: seq<Byte>, i: nat, b: seq<Byte>): (r: seq<Byte>)
    requires i + |b| <= |s|
    ensures |r| == |s|
    ensures r[i..i + |b|] == b
    ensures forall k :: 0 <= k < |s| && !(i <= k < i + |b|) ==> r[k] == s[k]
  {
    s[..i] + b + s[i + |b|..]
  }

  // ---- Writes through a slice `a[lo:hi]` ----

  method PutU16(a: array<Byte>, lo: nat, hi: nat, i: nat, v: U16)
    requires lo + i + 2 <= hi <= a.Length
    modifies a
    ensures a[lo..hi] == SetU16(old(a[lo..hi]), i, v)
    ensures a[..lo] == old(a[..lo]) && a[hi..] == old(a[hi..])
  {
    a[lo + i], a[lo + i + 1] := v / 0x100, v % 0x100;
  }

  /** Go's `copy(slice[i:], b)` when `b` fits. */
  method PutBytes(a: array<Byte>, lo: nat, hi: nat, i: nat, b: seq<Byte>)
    requires lo + i + |b| <= hi <= a.Length
    modifies a
    ensures a[lo..hi] == SetBytes(old(a[lo..hi]), i, b)
    ensures a[..lo] == old(a[..lo]) && a[hi..] == old(a[hi..])
  {
    forall k | 0 <= k < |b| {
      a[lo + i + k] := b[k];
    }
    ghost var r := SetBytes(old(a[lo..hi]), i, b);
    assert forall k :: i <= k < i + |b| ==> r[k] == r[i..i + |b|][k - i];
  }
}
