/** The keys under which sessions look each other up (tun.go): an app's uid, a UDP source
    "address:port", or the two addresses of a ping, "source-destination". */
module LockKeys {
  import opened Bytes

  /** What a goroutine wants a shared object for. */
  datatype Errand =
    | Conn(uid: nat)                                            // the statistics of an app
    | Packet(source: string, port: nat, app: Option<nat>)       // the connection of a UDP source
    | Ping(source: string, destination: string)                 // the connection of a pair of hosts

  datatype Key = Uid(uid: nat) | Text(text: string)

  /** The printed form of an IP address, possibly in brackets. */
  predicate IpText(s: string) {
    forall i :: 0 <= i < |s| ==>
      || '0' <= s[i] <= '9' || 'a' <= s[i] <= 'f'
      || s[i] == ':' || s[i] == '.' || s[i] == '[' || s[i] == ']'
  }

  predicate WellFormed(t: Errand) {
    match t
    case Conn(_) => true
    case Packet(source, _, _) => IpText(source)
    case Ping(source, destination) => IpText(source) && IpText(destination)
  }

  predicate Digits(s: string) {
    s != [] && forall i :: 0 <= i < |s| ==> '0' <= s[i] <= '9'
  }

  function Decimal(n: nat): (s: string)
    ensures Digits(s)
  {
    var d := [('0' as int + n % 10) as char];
    if n < 10 then d else Decimal(n / 10) + d
  }

  function KeyOf(t: Errand): Key {
    match t
    case Conn(uid) => Uid(uid)
    case Packet(source, port, _) => Text(source + ":" + Decimal(port))
    case Ping(source, destination) => Text(source + "-" + destination)
  }

  lemma {:induction false} DecimalInjective(m: nat, n: nat)
    requires Decimal(m) == Decimal(n)
    ensures m == n
  {
    var s := Decimal(m);
    assert s[|s| - 1] as int == '0' as int + m % 10 == '0' as int + n % 10;
    if m >= 10 && n >= 10 {
      assert Decimal(m / 10) == s[..|s| - 1] == Decimal(n / 10);
      DecimalInjective(m / 10, n / 10);
    }
  }

  lemma LastColon(a: string, m: string, b: string, n: string)
    requires Digits(m) && Digits(n) && a + ":" + m == b + ":" + n
    ensures a == b && m == n
  {
    var s, t := a + ":" + m, b + ":" + n;
    assert s[|a|] == ':' && t[|b|] == ':';
    assert forall i :: |a| < i < |s| ==> s[i] == m[i - |a| - 1];
    assert forall i :: |b| < i < |t| ==> t[i] == n[i - |b| - 1];
    assert a == s[..|a|] && b == t[..|b|] && m == s[|a| + 1..] && n == t[|b| + 1..];
  }

  lemma FirstDash(a: string, c: string, b: string, d: string)
    requires IpText(a) && IpText(b) && a + "-" + c == b + "-" + d
    ensures a == b && c == d
  {
    var s, t := a + "-" + c, b + "-" + d;
    assert s[|a|] == '-' && t[|b|] == '-';
    assert forall i :: 0 <= i < |a| ==> s[i] == a[i];
    assert forall i :: 0 <= i < |b| ==> t[i] == b[i];
    assert a == s[..|a|] && b == t[..|b|] && c == s[|a| + 1..] && d == t[|b| + 1..];
  }

  lemma DashOrNot(a: string, m: string, b: string, c: string)
    requires IpText(a) && Digits(m)
    ensures a + ":" + m != b + "-" + c
  {
    var s, t := a + ":" + m, b + "-" + c;
    assert t[|b|] == '-';
    assert forall i :: 0 <= i < |a| ==> s[i] == a[i];
    assert s[|a|] == ':';
    assert forall i :: |a| < i < |s| ==> s[i] == m[i - |a| - 1];
    assert forall i :: 0 <= i < |s| ==> s[i] != '-';
  }

  /** Two errands have the same key only if they want the same thing. */
  lemma KeysNeverCollide(t: Errand, u: Errand)
    requires WellFormed(t) && WellFormed(u)
    ensures KeyOf(t) == KeyOf(u) <==>
      match (t, u)
      case (Conn(x), Conn(y)) => x == y
      case (Packet(a, p, _), Packet(b, q, _)) => a == b && p == q
      case (Ping(a, c), Ping(b, d)) => a == b && c == d
      case _ => false
  {
    match (t, u)
    case (Packet(a, p, _), Packet(b, q, _)) =>
      if KeyOf(t) == KeyOf(u) {
        LastColon(a, Decimal(p), b, Decimal(q));
        DecimalInjective(p, q);
      }
    case (Ping(a, c), Ping(b, d)) =>
      if KeyOf(t) == KeyOf(u) {
        FirstDash(a, c, b, d);
      }
    case (Packet(a, p, _), Ping(b, d)) => DashOrNot(a, Decimal(p), b, d);
    case (Ping(a, c), Packet(b, q, _)) => DashOrNot(b, Decimal(q), a, c);
    case _ =>
  }
}
