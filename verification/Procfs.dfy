/** Finding the owner of a socket in /proc/net (procfs.go): which data field belongs to a header
    column, the text of a local address, and the search for its row. */
module Procfs {
  import opened Bytes
  import LockKeys

  // ---- Columns ----

  const TX_QUEUE := "tx_queue"
  const RX_QUEUE := "rx_queue"
  const TR := "tr"
  const TM_WHEN := "tm->when"
  const LOCAL_ADDRESS := "local_address"
  const UID := "uid"

  /** Two header columns that stand over one data field. */
  predicate IsPair(a: string, b: string) {
    || (a == TX_QUEUE && b == RX_QUEUE) || (a == RX_QUEUE && b == TX_QUEUE)
    || (a == TR && b == TM_WHEN) || (a == TM_WHEN && b == TR)
  }

  /** The data field under a header column: a paired column shares its neighbour's field. */
  function Field(columns: seq<string>, i: nat): nat
    requires i < |columns|
  {
    if i == 0 then 0
    else Field(columns, i - 1) + if IsPair(columns[i - 1], columns[i]) then 0 else 1
  }

  predicate Once(columns: seq<string>, name: string) {
    forall i, j :: 0 <= i < j < |columns| && columns[i] == name ==> columns[j] != name
  }

  predicate Adjacent(columns: seq<string>, a: string, b: string) {
    && Once(columns, a) && Once(columns, b)
    && forall i, j :: 0 <= i < |columns| && 0 <= j < |columns| && columns[i] == a && columns[j] == b ==>
         i == j + 1 || j == i + 1
  }

  /** A header row as /proc prints it: paired columns are next to each other. */
  predicate PairsAdjacent(columns: seq<string>) {
    Adjacent(columns, TX_QUEUE, RX_QUEUE) && Adjacent(columns, TR, TM_WHEN)
  }

  /** How many pairs are complete. */
  function Complete(columns: seq<string>): nat {
    (if TX_QUEUE in columns && RX_QUEUE in columns then 1 else 0)
    + (if TR in columns && TM_WHEN in columns then 1 else 0)
  }

  /** This column completes a pair. */
  predicate Completes(columns: seq<string>, col: string) {
    || (col == RX_QUEUE && TX_QUEUE in columns) || (col == TX_QUEUE && RX_QUEUE in columns)
    || (col == TM_WHEN && TR in columns) || (col == TR && TM_WHEN in columns)
  }

  lemma CompleteStep(columns: seq<string>, col: string)
    requires col in columns ==> col != TX_QUEUE && col != RX_QUEUE && col != TR && col != TM_WHEN
    ensures Complete(columns + [col]) == Complete(columns) + if Completes(columns, col) then 1 else 0
  {
  }

  lemma NewInItsPair(columns: seq<string>, i: nat)
    requires PairsAdjacent(columns) && i < |columns|
    ensures columns[i] in columns[..i] ==>
      columns[i] != TX_QUEUE && columns[i] != RX_QUEUE && columns[i] != TR && columns[i] != TM_WHEN
  {
  }

  /** A column completes a pair exactly when it is paired with its left neighbour. */
  lemma CompletesBesidePair(columns: seq<string>, i: nat)
    requires PairsAdjacent(columns) && 0 < i < |columns|
    ensures Completes(columns[..i], columns[i]) <==> IsPair(columns[i - 1], columns[i])
  {
    hide Adjacent;
    if columns[i] == RX_QUEUE {
      PairCompletes(columns, i, TX_QUEUE, RX_QUEUE);
    } else if columns[i] == TX_QUEUE {
      PairCompletes(columns, i, RX_QUEUE, TX_QUEUE);
    } else if columns[i] == TM_WHEN {
      PairCompletes(columns, i, TR, TM_WHEN);
    } else if columns[i] == TR {
      PairCompletes(columns, i, TM_WHEN, TR);
    }
  }

  lemma {:induction false} FieldCountsPairs(columns: seq<string>, i: nat)
    requires PairsAdjacent(columns) && i < |columns|
    ensures Field(columns, i) + Complete(columns[..i + 1]) == i
  {
    hide PairsAdjacent, IsPair, Completes;
    var before := columns[..i];
    assert columns[..i + 1] == before + [columns[i]];
    NewInItsPair(columns, i);
    CompleteStep(before, columns[i]);
    if i > 0 {
      FieldCountsPairs(columns, i - 1);
      hide Complete;
      CompletesBesidePair(columns, i);
    } else {
      NothingCompletes(columns[i]);
    }
  }

  lemma NothingCompletes(col: string)
    ensures !Completes([], col)
  {
  }

  /** The second of a pair completes it exactly when the first is its left neighbour. */
  lemma PairCompletes(columns: seq<string>, i: nat, a: string, b: string)
    requires (Adjacent(columns, a, b) || Adjacent(columns, b, a)) && a != b
    requires 0 < i < |columns| && columns[i] == b
    ensures a in columns[..i] <==> columns[i - 1] == a
  {
    if a in columns[..i] {
      var j :| 0 <= j < i && columns[..i][j] == a;
      assert columns[j] == a;
    } else {
      assert columns[..i][i - 1] == columns[i - 1];
    }
  }

  /** The result of the column scan for a name: the field of its last column, or -1. */
  predicate IsIndexOf(columns: seq<string>, name: string, index: int) {
    if name in columns then
      exists i :: 0 <= i < |columns| && columns[i] == name && name !in columns[i + 1..] && index == Field(columns, i)
    else index == -1
  }

  lemma FieldOfPrefix(columns: seq<string>, n: nat, i: nat)
    requires i < n <= |columns|
    ensures Field(columns[..n], i) == Field(columns, i)
  {
    if i > 0 { FieldOfPrefix(columns, n, i - 1); }
  }

  /** The indices of "local_address" and "uid" are the positions of their data fields. */
  method ScanColumns(columns: seq<string>) returns (local: int, uid: int)
    requires PairsAdjacent(columns)
    ensures IsIndexOf(columns, LOCAL_ADDRESS, local)
    ensures IsIndexOf(columns, UID, uid)
  {
    hide Field, PairsAdjacent, IsPair, IsIndexOf;
    local, uid := -1, -1;
    NoColumns();
    assert columns[..0] == [];
    var txQueue, rxQueue, tr, tmWhen := false, false, false, false;
    var idx := 0;
    while idx < |columns|
      invariant idx <= |columns|
      invariant txQueue == (TX_QUEUE in columns[..idx]) && rxQueue == (RX_QUEUE in columns[..idx])
      invariant tr == (TR in columns[..idx]) && tmWhen == (TM_WHEN in columns[..idx])
      invariant IsIndexOf(columns[..idx], LOCAL_ADDRESS, local)
      invariant IsIndexOf(columns[..idx], UID, uid)
    {
      var col := columns[idx];
      var offset := 0;
      if txQueue && rxQueue {
        offset := offset - 1;
      }
      if tr && tmWhen {
        offset := offset - 1;
      }
      ghost var before, here := columns[..idx], columns[..idx + 1];
      assert here == before + [col];
      FieldCountsPairs(columns, idx);
      FieldOfPrefix(columns, idx + 1, idx);
      OtherColumnKeepsPairs(before, col);
      NextColumn(before, col, LOCAL_ADDRESS, local);
      NextColumn(before, col, UID, uid);
      if col == TX_QUEUE {
        txQueue := true;
      } else if col == RX_QUEUE {
        rxQueue := true;
      } else if col == TR {
        tr := true;
      } else if col == TM_WHEN {
        tmWhen := true;
      } else if col == LOCAL_ADDRESS {
        local := idx + offset;
      } else if col == UID {
        uid := idx + offset;
      }
      idx := idx + 1;
    }
    assert columns[..|columns|] == columns;
  }

  lemma NoColumns()
    ensures IsIndexOf([], LOCAL_ADDRESS, -1) && IsIndexOf([], UID, -1)
  {
  }

  lemma OtherColumnKeepsPairs(columns: seq<string>, col: string)
    ensures col == LOCAL_ADDRESS || col == UID ==> Complete(columns + [col]) == Complete(columns)
  {
  }

  lemma NextColumn(columns: seq<string>, col: string, name: string, index: int)
    requires IsIndexOf(columns, name, index)
    ensures IsIndexOf(columns + [col], name, if col == name then Field(columns + [col], |columns|) else index)
  {
    hide Field;
    var more := columns + [col];
    if col == name {
      assert more[|columns|] == name && more[|columns| + 1..] == [];
    } else if name in columns {
      var i :| 0 <= i < |columns| && columns[i] == name && name !in columns[i + 1..] && index == Field(columns, i);
      assert more[i + 1..] == columns[i + 1..] + [col];
      assert more[..|columns|] == columns;
      FieldOfPrefix(more, |columns|, i);
      assert more[i] == name;
    }
  }

  /** The header that the kernel prints in /proc/net/tcp: the local address is the data's second
      field, the uid its eighth. */
  lemma KernelHeader(columns: seq<string>)
    requires columns == ["sl", "local_address", "rem_address", "st", "tx_queue", "rx_queue", "tr", "tm->when",
                         "retrnsmt", "uid", "timeout", "inode"]
    ensures PairsAdjacent(columns)
    ensures forall index :: IsIndexOf(columns, "local_address", index) <==> index == 1
    ensures forall index :: IsIndexOf(columns, "uid", index) <==> index == 7
  {
    hide Field;
    assert columns[1] == LOCAL_ADDRESS && LOCAL_ADDRESS !in columns[2..];
    assert columns[9] == UID && UID !in columns[10..];
    KernelFields(columns);
  }

  lemma KernelFields(columns: seq<string>)
    requires columns == ["sl", "local_address", "rem_address", "st", "tx_queue", "rx_queue", "tr", "tm->when",
                         "retrnsmt", "uid", "timeout", "inode"]
    ensures Field(columns, 1) == 1 && Field(columns, 9) == 7
  {
    assert Field(columns, 1) == 1;
    assert Field(columns, 2) == 2;
    assert Field(columns, 3) == 3;
    assert Field(columns, 4) == Field(columns, 5) == 4;
    assert Field(columns, 6) == Field(columns, 7) == 5;
    assert Field(columns, 8) == 6;
  }

  // ---- The text of a local address ----

  /** The place of byte i when its group of four is reversed. */
  function Mirror(i: nat): (j: nat)
    ensures j / 4 == i / 4 && j % 4 == 3 - i % 4
  {
    i / 4 * 4 + (3 - i % 4)
  }

  lemma MirrorTwice(i: nat)
    ensures Mirror(Mirror(i)) == i
  {
  }

  lemma MirrorStays(i: nat, n: nat)
    requires i < n && n % 4 == 0
    ensures Mirror(i) < n
  {
  }

  /** Each group of four bytes reversed, which is how a little-endian machine prints them. */
  function Swapped(ip: seq<Byte>): (r: seq<Byte>)
    requires |ip| % 4 == 0
    ensures |r| == |ip|
    ensures forall i :: 0 <= i < |ip| ==> Mirror(i) < |ip| && r[i] == ip[Mirror(i)]
  {
    hide Mirror;
    seq(|ip|, i requires 0 <= i < |ip| => MirrorStays(i, |ip|); ip[Mirror(i)])
  }

  lemma SwappedTwice(ip: seq<Byte>)
    requires |ip| % 4 == 0
    ensures Swapped(Swapped(ip)) == ip
  {
    hide Swapped, Mirror;
    forall i | 0 <= i < |ip|
      ensures Swapped(Swapped(ip))[i] == ip[i]
    {
      MirrorTwice(i);
    }
  }

  lemma MirrorInGroup(i: nat)
    requires i % 4 == 0
    ensures Mirror(i) == i + 3 && Mirror(i + 1) == i + 2 && Mirror(i + 2) == i + 1 && Mirror(i + 3) == i
  {
  }

  method NativeEndianIp(ip: seq<Byte>, bigEndian: bool) returns (result: array<Byte>)
    requires |ip| % 4 == 0
    ensures result[..] == if bigEndian then ip else Swapped(ip)
    ensures fresh(result)
  {
    hide Swapped, Mirror;
    result := new Byte[|ip|];
    ghost var want := if bigEndian then ip else Swapped(ip);
    var i := 0;
    while i < |ip|
      invariant i <= |ip| && i % 4 == 0
      invariant forall k :: 0 <= k < i ==> result[k] == want[k]
    {
      MirrorInGroup(i);
      if bigEndian {
        result[i], result[i + 1], result[i + 2], result[i + 3] := ip[i], ip[i + 1], ip[i + 2], ip[i + 3];
      } else {
        result[i], result[i + 1], result[i + 2], result[i + 3] := ip[i + 3], ip[i + 2], ip[i + 1], ip[i];
      }
      i := i + 4;
    }
  }

  function Digit(n: nat): (c: char)
    requires n < 16
    ensures '0' <= c <= '9' || 'a' <= c <= 'f'
  {
    if n < 10 then ('0' as int + n) as char else ('a' as int + n - 10) as char
  }

  function Hex(b: seq<Byte>): (s: string)
    ensures |s| == 2 * |b|
    ensures forall i :: 0 <= i < |s| ==> '0' <= s[i] <= '9' || 'a' <= s[i] <= 'f'
  {
    if b == [] then "" else [Digit(b[0] / 16), Digit(b[0] % 16)] + Hex(b[1..])
  }

  lemma {:induction false} HexInjective(a: seq<Byte>, b: seq<Byte>)
    requires Hex(a) == Hex(b)
    ensures a == b
  {
    assert |a| == |b|;
    if a != [] {
      assert Hex(a)[0] == Hex(b)[0] && Hex(a)[1] == Hex(b)[1];
      assert Hex(a)[2..] == Hex(a[1..]) && Hex(b)[2..] == Hex(b[1..]);
      HexInjective(a[1..], b[1..]);
      assert a[0] / 16 == b[0] / 16 && a[0] % 16 == b[0] % 16;
      assert a == [a[0]] + a[1..] && b == [b[0]] + b[1..];
    }
  }

  /** The text the search looks for. */
  function LocalText(ip: seq<Byte>, port: U16, bigEndian: bool): string
    requires |ip| % 4 == 0
  {
    Hex(if bigEndian then ip else Swapped(ip)) + ":" + Hex([port / 0x100, port % 0x100])
  }

  /** `strings.EqualFold` on ASCII text. */
  function Lower(c: char): char {
    if 'A' <= c <= 'Z' then (c as int + 32) as char else c
  }

  predicate EqualFold(s: string, t: string) {
    |s| == |t| && forall i :: 0 <= i < |s| ==> Lower(s[i]) == Lower(t[i])
  }

  lemma EqualFoldOfLower(s: string, t: string)
    requires EqualFold(s, t)
    requires forall i :: 0 <= i < |s| ==> Lower(s[i]) == s[i]
    requires forall i :: 0 <= i < |t| ==> Lower(t[i]) == t[i]
    ensures s == t
  {
  }

  lemma LocalTextIsLower(ip: seq<Byte>, port: U16, bigEndian: bool, i: nat)
    requires |ip| % 4 == 0 && i < |LocalText(ip, port, bigEndian)|
    ensures Lower(LocalText(ip, port, bigEndian)[i]) == LocalText(ip, port, bigEndian)[i]
  {
  }

  /** The text is that of one address and port only, whatever the case of its letters. */
  lemma LocalTextIdentifies(ip: seq<Byte>, port: U16, ip': seq<Byte>, port': U16, bigEndian: bool)
    requires |ip| % 4 == 0 && |ip'| % 4 == 0
    ensures EqualFold(LocalText(ip, port, bigEndian), LocalText(ip', port', bigEndian)) <==> ip == ip' && port == port'
  {
    hide Hex, Swapped;
    var s, t := LocalText(ip, port, bigEndian), LocalText(ip', port', bigEndian);
    if EqualFold(s, t) {
      forall i | 0 <= i < |s| ensures Lower(s[i]) == s[i] && Lower(t[i]) == t[i] {
        LocalTextIsLower(ip, port, bigEndian, i);
        LocalTextIsLower(ip', port', bigEndian, i);
      }
      EqualFoldOfLower(s, t);
      var a, b := if bigEndian then ip else Swapped(ip), if bigEndian then ip' else Swapped(ip');
      assert |a| == |b|;
      assert Hex(a) == s[..2 * |a|] == t[..2 * |b|] == Hex(b);
      var p, q: seq<Byte> := [port / 0x100, port % 0x100], [port' / 0x100, port' % 0x100];
      assert Hex(p) == s[2 * |a| + 1..] == t[2 * |b| + 1..] == Hex(q);
      HexInjective(a, b);
      HexInjective(p, q);
      if !bigEndian {
        SwappedTwice(ip);
        SwappedTwice(ip');
      }
      assert p[0] == q[0] && p[1] == q[1];
    }
  }

  /** The value of a hexadecimal digit in either case. */
  function Nibble(c: char): Option<nat> {
    if '0' <= c <= '9' then Some(c as int - 48)
    else if 'a' <= c <= 'f' then Some(c as int - 87)
    else if 'A' <= c <= 'F' then Some(c as int - 55)
    else None
  }

  /** This text says the byte in hexadecimal at i. */
  predicate SaysByte(t: string, i: nat, b: Byte) {
    i + 2 <= |t| && Nibble(t[i]) == Some(b / 16) && Nibble(t[i + 1]) == Some(b % 16)
  }

  /** This text is how the kernel prints a local address: the bytes of the address, each group of
      four in the machine's order, a colon, and the port, high byte first. */
  predicate SaysSocket(t: string, ip: seq<Byte>, port: U16, bigEndian: bool) {
    && |t| == 2 * |ip| + 5 && t[2 * |ip|] == ':'
    && SaysByte(t, 2 * |ip| + 1, port / 0x100) && SaysByte(t, 2 * |ip| + 3, port % 0x100)
    && SaysIp(t, ip, bigEndian)
  }

  predicate SaysIp(t: string, ip: seq<Byte>, bigEndian: bool) {
    forall i, at :: 0 <= i < |ip| && 0 <= at < |ip| && Printed(bigEndian, i, at) ==> SaysByte(t, 2 * at, ip[i])
  }

  /** Byte i is printed at that place: its own, or the mirrored one in its group of four. */
  predicate Printed(bigEndian: bool, i: nat, at: nat) {
    if bigEndian then at == i else at / 4 == i / 4 && at % 4 + i % 4 == 3
  }

  lemma SameDigit(n: nat, c: char)
    requires n < 16
    ensures Lower(Digit(n)) == Lower(c) <==> Nibble(c) == Some(n)
  {
  }

  lemma {:induction false} HexAt(b: seq<Byte>, i: nat)
    requires i < |b|
    ensures Hex(b)[2 * i] == Digit(b[i] / 16) && Hex(b)[2 * i + 1] == Digit(b[i] % 16)
  {
    if i > 0 {
      HexAt(b[1..], i - 1);
    }
  }

  lemma HexSays(b: seq<Byte>, t: string, from: nat, i: nat)
    requires i < |b| && from + 2 * |b| <= |t|
    ensures SaysByte(t, from + 2 * i, b[i]) <==>
      && Lower(Hex(b)[2 * i]) == Lower(t[from + 2 * i]) && Lower(Hex(b)[2 * i + 1]) == Lower(t[from + 2 * i + 1])
  {
    hide Hex, Lower, Digit, Nibble;
    HexAt(b, i);
    SameDigit(b[i] / 16, t[from + 2 * i]);
    SameDigit(b[i] % 16, t[from + 2 * i + 1]);
  }

  /** From there on the text is a, up to the case of letters. */
  predicate FoldsAt(a: string, t: string, from: nat) {
    from + |a| <= |t| && forall k :: 0 <= k < |a| ==> Lower(a[k]) == Lower(t[from + k])
  }

  predicate Says(t: string, from: nat, b: seq<Byte>) {
    forall i :: 0 <= i < |b| ==> SaysByte(t, from + 2 * i, b[i])
  }

  /** Hexadecimal text says its bytes. */
  lemma HexFold(b: seq<Byte>, t: string, from: nat)
    requires from + 2 * |b| <= |t|
    ensures FoldsAt(Hex(b), t, from) <==> Says(t, from, b)
  {
    hide Hex, Lower, SaysByte;
    forall i | 0 <= i < |b|
      ensures SaysByte(t, from + 2 * i, b[i]) <==>
        && Lower(Hex(b)[2 * i]) == Lower(t[from + 2 * i]) && Lower(Hex(b)[2 * i + 1]) == Lower(t[from + 2 * i + 1])
    {
      HexSays(b, t, from, i);
    }
    if Says(t, from, b) {
      forall k | 0 <= k < 2 * |b|
        ensures Lower(Hex(b)[k]) == Lower(t[from + k])
      {
        assert SaysByte(t, from + 2 * (k / 2), b[k / 2]);
        assert k == 2 * (k / 2) || k == 2 * (k / 2) + 1;
      }
    }
  }

  /** The texts that are equal to the code's, up to the case of letters, are those that say this
      address and port. */
  lemma TextExactly(ip: seq<Byte>, port: U16, bigEndian: bool, t: string)
    requires |ip| % 4 == 0
    ensures EqualFold(LocalText(ip, port, bigEndian), t) <==> SaysSocket(t, ip, port, bigEndian)
  {
    hide Hex, SaysByte, Swapped, FoldsAt, EqualFold, Lower, SaysIp, Says;
    var native, n := if bigEndian then ip else Swapped(ip), |ip|;
    FoldParts(Hex(native), Hex([port / 0x100, port % 0x100]), t);
    if |t| == 2 * n + 5 {
      HexFold(native, t, 0);
      PortFold(port, t, 2 * n + 1);
      NativePlaces(ip, bigEndian, t);
    }
  }

  lemma PortFold(port: U16, t: string, from: nat)
    requires from + 4 <= |t|
    ensures FoldsAt(Hex([port / 0x100, port % 0x100]), t, from) <==>
      SaysByte(t, from, port / 0x100) && SaysByte(t, from + 2, port % 0x100)
  {
    hide Hex, SaysByte, FoldsAt;
    var bytes: seq<Byte> := [port / 0x100, port % 0x100];
    HexFold(bytes, t, from);
    assert bytes[0] == port / 0x100 && bytes[1] == port % 0x100;
  }

  lemma FoldParts(a: string, b: string, t: string)
    ensures EqualFold(a + ":" + b, t) <==>
      |t| == |a| + 1 + |b| && FoldsAt(a, t, 0) && t[|a|] == ':' && FoldsAt(b, t, |a| + 1)
  {
    assert forall c :: Lower(c) == Lower(':') <==> c == ':';
    hide Lower;
    var s := a + ":" + b;
    if |t| == |s| {
      assert forall k :: 0 <= k < |a| ==> s[k] == a[k] && t[k] == t[0 + k];
      assert s[|a|] == ':';
      assert forall k :: 0 <= k < |b| ==> s[|a| + 1 + k] == b[k];
      assert forall k :: |a| + 1 <= k < |s| ==> s[k] == b[k - |a| - 1] && t[k] == t[|a| + 1 + (k - |a| - 1)];
    }
  }

  lemma NativePlaces(ip: seq<Byte>, bigEndian: bool, t: string)
    requires |ip| % 4 == 0
    ensures SaysIp(t, ip, bigEndian) <==> Says(t, 0, if bigEndian then ip else Swapped(ip))
  {
    hide SaysByte, Swapped, Mirror;
    forall i, at | 0 <= i < |ip| && 0 <= at < |ip|
      ensures Printed(bigEndian, i, at) <==> i == if bigEndian then at else Mirror(at)
    {
    }
    forall at | 0 <= at < |ip|
      ensures Mirror(at) < |ip|
    {
      MirrorStays(at, |ip|);
    }
  }

  // ---- The search ----

  predicate Matches(fields: seq<string>, local: string, indexOfLocal: nat, indexOfUid: nat) {
    |fields| > indexOfLocal && |fields| > indexOfUid && EqualFold(local, fields[indexOfLocal])
  }

  predicate AllDigits(s: string) {
    s != "" && forall i :: 0 <= i < |s| ==> '0' <= s[i] <= '9'
  }

  function Value(s: string): nat
    requires forall i :: 0 <= i < |s| ==> '0' <= s[i] <= '9'
  {
    if s == "" then 0
    else
      var last := s[|s| - 1];
      assert '0' <= last;
      Value(s[..|s| - 1]) * 10 + (last as int - '0' as int)
  }

  /** `strconv.Atoi` with 64-bit ints. */
  function Atoi(s: string): Option<int> {
    var digits := if s != "" && (s[0] == '-' || s[0] == '+') then s[1..] else s;
    if !AllDigits(digits) then None
    else
      var n: int := if s[0] == '-' then 0 - (Value(digits) as int) else Value(digits);
      if -0x8000_0000_0000_0000 <= n < 0x8000_0000_0000_0000 then Some(n) else None
  }

  /** What a matching row says. */
  function UidOf(fields: seq<string>, indexOfUid: nat): int
    requires indexOfUid < |fields|
  {
    var n := Atoi(fields[indexOfUid]);
    if n.None? then -1 else ToInt32(n.value)
  }

  /** Every decimal number that fits 64 bits is read as what it says, with or without a sign. */
  lemma AtoiReads(n: nat)
    ensures n < 0x8000_0000_0000_0000 ==>
      && Atoi(LockKeys.Decimal(n)) == Atoi("+" + LockKeys.Decimal(n)) == Some(n)
      && Atoi("-" + LockKeys.Decimal(n)).Some? && Atoi("-" + LockKeys.Decimal(n)).value + n == 0
    ensures n >= 0x8000_0000_0000_0000 ==> Atoi(LockKeys.Decimal(n)) == None
  {
    var d := LockKeys.Decimal(n);
    DecimalValue(n);
    hide Value;
    assert d[0] != '-' && d[0] != '+';
    assert ("+" + d)[1..] == d && ("-" + d)[1..] == d;
  }

  lemma {:induction false} DecimalValue(n: nat)
    ensures AllDigits(LockKeys.Decimal(n)) && Value(LockKeys.Decimal(n)) == n
  {
    var d := LockKeys.Decimal(n);
    if n >= 10 {
      DecimalValue(n / 10);
      assert d[..|d| - 1] == LockKeys.Decimal(n / 10);
    } else {
      assert d[..0] == "";
    }
  }

  /** Nothing else is read: an empty text, or one with a character that is no digit behind the
      first one. */
  lemma AtoiRefuses(s: string, i: nat)
    requires s == "" || (0 < i < |s| && !('0' <= s[i] <= '9'))
    ensures Atoi(s) == None
  {
    if s != "" {
      assert s[1..][i - 1] == s[i];
    }
  }

  /** A row matches if both columns are there and the first is the text of this socket; a uid of up
      to 31 bits is what it says. */
  lemma RowExactly(fields: seq<string>, ip: seq<Byte>, port: U16, bigEndian: bool, indexOfLocal: nat, indexOfUid: nat)
    requires |ip| % 4 == 0
    ensures Matches(fields, LocalText(ip, port, bigEndian), indexOfLocal, indexOfUid) <==>
      |fields| > indexOfLocal && |fields| > indexOfUid && SaysSocket(fields[indexOfLocal], ip, port, bigEndian)
    ensures forall uid: nat ::
      uid < 0x8000_0000 && |fields| > indexOfUid && fields[indexOfUid] == LockKeys.Decimal(uid) ==>
        UidOf(fields, indexOfUid) == uid
  {
    hide LocalText, EqualFold, SaysSocket, Atoi, LockKeys.Decimal;
    if |fields| > indexOfLocal {
      TextExactly(ip, port, bigEndian, fields[indexOfLocal]);
    }
    forall uid: nat | uid < 0x8000_0000 && |fields| > indexOfUid && fields[indexOfUid] == LockKeys.Decimal(uid)
      ensures UidOf(fields, indexOfUid) == uid
    {
      AtoiReads(uid);
    }
  }

  /** The uid of the first row that matches, or -1 if none does, if the first that does has no
      number, or if the file or its columns are unknown. */
  method QueryUid(rows: Option<seq<seq<string>>>, ip: seq<Byte>, port: U16, bigEndian: bool,
                  indexOfLocal: int, indexOfUid: int)
      returns (uid: int)
    requires |ip| % 4 == 0
    ensures indexOfLocal < 0 || indexOfUid < 0 || ip == [] || rows.None? ==> uid == -1
    ensures indexOfLocal >= 0 && indexOfUid >= 0 && ip != [] && rows.Some? ==>
      var local := LocalText(ip, port, bigEndian);
      && ((forall k :: 0 <= k < |rows.value| ==> !Matches(rows.value[k], local, indexOfLocal, indexOfUid))
           ==> uid == -1)
      && (forall k :: 0 <= k < |rows.value| && Matches(rows.value[k], local, indexOfLocal, indexOfUid)
            && (forall j :: 0 <= j < k ==> !Matches(rows.value[j], local, indexOfLocal, indexOfUid))
            ==> uid == UidOf(rows.value[k], indexOfUid))
  {
    hide Hex, Swapped, EqualFold, Atoi;
    if indexOfLocal < 0 || indexOfUid < 0 {
      return -1;
    }
    if |ip| == 0 {
      return -1;
    }
    var native := NativeEndianIp(ip, bigEndian);
    var local := Hex(native[..]) + ":" + Hex([port / 0x100, port % 0x100]);
    if rows.None? {
      return -1;
    }
    var n := 0;
    while n < |rows.value|
      invariant n <= |rows.value|
      invariant forall j :: 0 <= j < n ==> !Matches(rows.value[j], local, indexOfLocal, indexOfUid)
    {
      var fields := rows.value[n];
      if |fields| > indexOfLocal && |fields| > indexOfUid && EqualFold(local, fields[indexOfLocal]) {
        var parsed := Atoi(fields[indexOfUid]);
        if parsed.None? {
          return -1;
        }
        return ToInt32(parsed.value);
      }
      n := n + 1;
    }
    uid := -1;
  }
}
