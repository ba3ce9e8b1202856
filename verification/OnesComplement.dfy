/** The Internet checksum (section 2 of RFC 1071) and its incremental update
    (section 3 of RFC 1624).

    `Combine`, `Checksum` and `Not` are the operations the packet library offers.
    `WordSum` and `Fold` are the reference: the exact integer sum of the big-endian
    words, and its one representative in 0..0xFFFF, where 0 stands for the sum 0 only. */
module OnesComplement {
  import opened Bytes

  function Not(x: U16): U16 {
    0xFFFF - x
  }

  /** Addition with end-around carry. */
  function Combine(a: U16, b: U16): U16 {
    var v := a + b;
    (v + v / 0x1_0000) % 0x1_0000
  }

  /** Word-by-word accumulation; an odd last byte is the high half of a word. */
  function Checksum(s: seq<Byte>, initial: U16): U16
    decreases |s|
  {
    if |s| == 0 then initial
    else if |s| == 1 then Combine(initial, (s[0] as int) * 0x100)
    else Checksum(s[2..], Combine(initial, U16At(s, 0)))
  }

  function WordSum(s: seq<Byte>): nat {
    if |s| == 0 then 0
    else if |s| == 1 then (s[0] as int) * 0x100
    else U16At(s, 0) + WordSum(s[2..])
  }

  function Fold(n: nat): U16 {
    if n == 0 then 0 else 1 + (n - 1) % 0xFFFF
  }

  /** What a receiver checks: all words, the checksum included, add up to 0xFFFF. */
  predicate SumsToOnes(n: nat) {
    Fold(n) == 0xFFFF
  }

  lemma FoldShift(a: nat, k: nat)
    requires a > 0
    ensures Fold(a + k * 0xFFFF) == Fold(a)
  {
    assert (a - 1 + k * 0xFFFF) % 0xFFFF == (a - 1) % 0xFFFF;
  }

  /** Two positive sums have one representative exactly when they agree modulo 0xFFFF. */
  lemma FoldCongruent(a: nat, b: nat, k: int)
    requires a > 0 && b > 0 && a == b + k * 0xFFFF
    ensures Fold(a) == Fold(b)
  {
    if k >= 0 { FoldShift(b, k); } else { FoldShift(a, -k); }
  }

  lemma FoldZero(n: nat)
    ensures Fold(n) == 0 <==> n == 0
  {
  }

  lemma FoldQuotient(n: nat) returns (k: nat)
    ensures n == Fold(n) + k * 0xFFFF
  {
    k := if n == 0 then 0 else (n - 1) / 0xFFFF;
  }

  lemma CombineIsFold(a: U16, b: U16)
    ensures Combine(a, b) == Fold(a + b)
  {
  }

  lemma FoldAbsorbs(a: nat, b: nat)
    ensures Fold(Fold(a) + b) == Fold(a + b)
  {
    var k := FoldQuotient(a);
    if a > 0 {
      FoldCongruent(a + b, Fold(a) + b, k);
    }
  }

  /** End-around-carry accumulation computes the representative of the exact sum. */
  lemma {:induction false} ChecksumIsFold(s: seq<Byte>, initial: U16)
    ensures Checksum(s, initial) == Fold(initial + WordSum(s))
    decreases |s|
  {
    if |s| == 0 {
    } else if |s| == 1 {
      CombineIsFold(initial, (s[0] as int) * 0x100);
    } else {
      var w := U16At(s, 0);
      CombineIsFold(initial, w);
      ChecksumIsFold(s[2..], Combine(initial, w));
      FoldAbsorbs(initial + w, WordSum(s[2..]));
    }
  }

  /** Continuing a checksum adds the words of the next region. */
  lemma ChecksumContinues(s: seq<Byte>, n: nat)
    ensures Checksum(s, Fold(n)) == Fold(n + WordSum(s))
  {
    ChecksumIsFold(s, Fold(n));
    FoldAbsorbs(n, WordSum(s));
  }

  lemma CombineAdds(m: nat, n: nat)
    ensures Combine(Fold(m), Fold(n)) == Fold(m + n)
  {
    CombineIsFold(Fold(m), Fold(n));
    FoldAbsorbs(m, Fold(n));
    FoldAbsorbs(n, m);
  }

  lemma WordSumOfWord(hi: Byte, lo: Byte)
    ensures WordSum([hi, lo]) == (hi as int) * 0x100 + lo
  {
    assert [hi, lo][2..] == [];
  }

  /** Sums split at every even position, whatever the parity of the rest. */
  lemma {:induction false} WordSumAppend(a: seq<Byte>, b: seq<Byte>)
    requires |a| % 2 == 0
    ensures WordSum(a + b) == WordSum(a) + WordSum(b)
  {
    if |a| == 0 {
      assert a + b == b;
    } else {
      assert (a + b)[2..] == a[2..] + b;
      WordSumAppend(a[2..], b);
    }
  }

  lemma WordSumSplit(s: seq<Byte>, d: nat)
    requires d <= |s| && d % 2 == 0
    ensures WordSum(s) == WordSum(s[..d]) + WordSum(s[d..])
  {
    assert s == s[..d] + s[d..];
    WordSumAppend(s[..d], s[d..]);
  }

  /** A region whose head and tail are summed separately, the tail first, and combined
      with further words: for every even head and every parity of the tail the result is
      the checksum of the whole. */
  lemma SplitSum(s: seq<Byte>, d: nat, extra: nat)
    requires d <= |s| && d % 2 == 0
    ensures Checksum(s[..d], Combine(Fold(extra), Checksum(s[d..], 0))) == Fold(extra + WordSum(s))
  {
    hide WordSum, Fold, Checksum, Combine;
    var head, tail := WordSum(s[..d]), WordSum(s[d..]);
    ChecksumIsFold(s[d..], 0);
    CombineAdds(extra, tail);
    ChecksumContinues(s[..d], extra + tail);
    WordSumSplit(s, d);
  }

  /** Writing the word at an even offset changes the sum by the difference of the words. */
  lemma {:induction false} WordSumSet(s: seq<Byte>, i: nat, v: U16)
    requires i + 2 <= |s| && i % 2 == 0
    ensures WordSum(SetU16(s, i, v)) == WordSum(s) - U16At(s, i) + v
  {
    var r := SetU16(s, i, v);
    if i == 0 {
      assert r[2..] == s[2..];
    } else {
      WordSumSet(s[2..], i - 2, v);
      assert r[2..] == SetU16(s[2..], i - 2, v);
    }
  }

  lemma {:induction false} WordSumZero(s: seq<Byte>)
    ensures WordSum(s) == 0 <==> forall i :: 0 <= i < |s| ==> s[i] == 0
  {
    if |s| >= 2 {
      WordSumZero(s[2..]);
      assert forall i :: 2 <= i < |s| ==> s[i] == s[2..][i - 2];
    }
  }

  /** The complement of a sum completes that sum to ones. */
  lemma NotCompletes(n: nat)
    ensures SumsToOnes(n + Not(Fold(n)))
  {
    var k := FoldQuotient(n);
    FoldCongruent(n + Not(Fold(n)), 0xFFFF, k);
  }

  /** Storing, in a zeroed checksum field at an even offset, the complement of the sum of
      the region and of any further words makes region and words sum to ones. */
  lemma StoredChecksumCompletes(s: seq<Byte>, i: nat, extra: nat)
    requires i + 2 <= |s| && i % 2 == 0 && U16At(s, i) == 0
    ensures SumsToOnes(extra + WordSum(SetU16(s, i, Not(Fold(extra + WordSum(s))))))
  {
    WordSumSet(s, i, Not(Fold(extra + WordSum(s))));
    NotCompletes(extra + WordSum(s));
  }

  lemma SetInSuffix(s: seq<Byte>, lo: nat, i: nat, v: U16)
    requires lo + i + 2 <= |s|
    ensures SetU16(s, lo + i, v)[lo..] == SetU16(s[lo..], i, v)
  {
  }

  /** A header of even length that is summed after its payload: the accumulated checksum is
      that of header and payload in order, and stored in the header it completes them. */
  lemma PayloadFirstCompletes(header: seq<Byte>, i: nat, payload: seq<Byte>, extra: nat)
    requires i + 2 <= |header| && |header| % 2 == 0 && i % 2 == 0 && U16At(header, i) == 0
    ensures var sum := Checksum(header, Checksum(payload, Fold(extra)));
            && sum == Fold(extra + WordSum(header + payload))
            && SumsToOnes(extra + WordSum(SetU16(header, i, Not(sum)) + payload))
  {
    hide WordSum, Fold, SumsToOnes, Checksum, SetU16;
    var body := WordSum(payload);
    ChecksumContinues(payload, extra);
    ChecksumContinues(header, extra + body);
    WordSumAppend(header, payload);
    StoredChecksumCompletes(header, i, extra + body);
    WordSumAppend(SetU16(header, i, Not(Fold(extra + body + WordSum(header)))), payload);
  }

  /** A checksum computed around its own two-byte field is that of the region with the
      field cleared, and stored in the field it completes the region. */
  lemma SkippedFieldCompletes(s: seq<Byte>, extra: nat)
    requires |s| >= 4
    ensures var sum := Checksum(s[4..], Checksum(s[..2], Fold(extra)));
            && sum == Fold(extra + WordSum(SetU16(s, 2, 0)))
            && SumsToOnes(extra + WordSum(SetU16(s, 2, Not(sum))))
  {
    hide WordSum, Fold, SumsToOnes, Checksum;
    var z := SetU16(s, 2, 0);
    assert z == s[..2] + ([0, 0] + s[4..]);
    ChecksumContinues(s[..2], extra);
    ChecksumContinues(s[4..], extra + WordSum(s[..2]));
    WordSumAppend(s[..2], [0, 0] + s[4..]);
    WordSumAppend([0, 0], s[4..]);
    WordSumOfWord(0, 0);
    hide SetU16;
    StoredChecksumCompletes(z, 2, extra);
    SetTwice(s, 2, 0, Not(Fold(extra + WordSum(z))));
  }

  lemma SetTwice(s: seq<Byte>, i: nat, v: U16, w: U16)
    requires i + 2 <= |s|
    ensures SetU16(SetU16(s, i, v), i, w) == SetU16(s, i, w)
  {
  }

  /** Next to a sum of ones, another positive sum is one exactly when the two agree modulo
      0xFFFF. */
  lemma OnesCongruent(a: nat, b: nat)
    requires a > 0 && b > 0 && SumsToOnes(a)
    ensures SumsToOnes(b) <==> (b - a) % 0xFFFF == 0
  {
    var k := FoldQuotient(a);
    var m := FoldQuotient(b);
    assert a == (1 + k) * 0xFFFF;
    assert b - a == Fold(b) + ((m as int) - 1 - k) * 0xFFFF;
    assert (b - a) % 0xFFFF == Fold(b) % 0xFFFF;
    FoldZero(b);
  }

  // ---- The incremental update ----

  /** The update of a header checksum `hc` when one 16-bit field goes from `m` to `m'`. */
  function Incremental(hc: U16, m: U16, m': U16): U16 {
    Not(Combine(Not(hc), Combine(m', Not(m))))
  }

  lemma IncrementalIsFold(hc: U16, m: U16, m': U16)
    ensures Incremental(hc, m, m') == Not(Fold(m' + Not(m) + Not(hc)))
  {
    CombineIsFold(m', Not(m));
    CombineIsFold(Not(hc), Combine(m', Not(m)));
    hide Combine, Fold;
    FoldAbsorbs(m' + Not(m), Not(hc));
  }

  /** The incremental update of a valid header is, bit for bit, the full recomputation,
      with one exception: a header that stores 0xFFFF for a zero sum and whose field goes
      from 0xFFFF to 0. `rest` is the sum of the words other than field and checksum. */
  lemma IncrementalIsRecomputation(rest: nat, hc: U16, m: U16, m': U16)
    requires rest > 0
    requires SumsToOnes(rest + hc + m)
    ensures Incremental(hc, m, m') == Not(Fold(rest + m'))
       <==> !(hc == 0xFFFF && m == 0xFFFF && m' == 0)
  {
    hide SumsToOnes, Fold, Incremental;
    var x := m' + Not(m) + Not(hc);
    var k := OnesQuotient(rest + hc + m);
    IncrementalIsFold(hc, m, m');
    FoldZero(x);
    FoldZero(rest + m');
    if x > 0 {
      assert x == rest + m' + (1 - k) * 0xFFFF;
      FoldCongruent(x, rest + m', 1 - k);
    }
  }

  lemma OnesQuotient(n: nat) returns (k: int)
    requires SumsToOnes(n)
    ensures n == 0xFFFF + k * 0xFFFF
  {
    k := FoldQuotient(n);
  }

  /** A header whose checksum was just recomputed never meets the exception. */
  lemma IncrementalAfterRecomputation(rest: nat, m: U16, m': U16)
    requires rest > 0
    ensures Incremental(Not(Fold(rest + m)), m, m') == Not(Fold(rest + m'))
  {
    var hc := Not(Fold(rest + m));
    NotCompletes(rest + m);
    IncrementalIsRecomputation(rest, hc, m, m');
  }
}
