/** Endpoints and the key both directions of a connection share (tcpport/assembler.go). */
module Endpoints {
  import opened Bytes
  import opened Decimal

  const COLON: Byte := 58
  const DASH: Byte := 45

  /** ip is the textual address. */
  datatype Endpoint = Endpoint(ip: seq<Byte>, port: nat) {
    function ToString(): seq<Byte>
    {
      ip + [COLON] + Digits(port)
    }

    /** Textual IP addresses have no dash in them. */
    ghost predicate Valid()
    {
      DASH !in ip
    }
  }

  /** Go's order on strings: the first differing byte decides, a proper prefix is less. */
  predicate Less(a: seq<Byte>, b: seq<Byte>)
  {
    if b == [] then false
    else if a == [] then true
    else if a[0] != b[0] then a[0] < b[0]
    else Less(a[1..], b[1..])
  }

  function Key(src: Endpoint, dst: Endpoint): seq<Byte>
  {
    var s, d := src.ToString(), dst.ToString();
    if Less(s, d) then s + [DASH] + d else d + [DASH] + s
  }

  lemma {:induction false} LessTotal(a: seq<Byte>, b: seq<Byte>)
    ensures Less(a, b) ==> !Less(b, a)
    ensures !Less(a, b) && !Less(b, a) ==> a == b
  {
    if a != [] && b != [] && a[0] == b[0] {
      LessTotal(a[1..], b[1..]);
      assert a == [a[0]] + a[1..] && b == [b[0]] + b[1..];
    }
  }

  /** Text around the first occurrence of a mark determines both sides. */
  lemma SplitFirst(mark: Byte, a: seq<Byte>, b: seq<Byte>, c: seq<Byte>, d: seq<Byte>)
    requires mark !in a && mark !in c
    requires a + [mark] + b == c + [mark] + d
    ensures a == c && b == d
  {
    var s := a + [mark] + b;
    assert s[|a|] == mark && s[|c|] == mark;
    assert forall i :: 0 <= i < |a| ==> s[i] == a[i];
    assert forall i :: 0 <= i < |c| ==> s[i] == c[i];
    assert |a| == |c|;
    assert a == s[..|a|] && c == s[..|c|];
    assert b == s[|a| + 1..] && d == s[|c| + 1..];
  }

  /** Text around the last occurrence of a mark determines both sides. */
  lemma SplitLast(mark: Byte, a: seq<Byte>, b: seq<Byte>, c: seq<Byte>, d: seq<Byte>)
    requires mark !in b && mark !in d
    requires a + [mark] + b == c + [mark] + d
    ensures a == c && b == d
  {
    var s := a + [mark] + b;
    assert s[|a|] == mark && s[|c|] == mark;
    assert forall i :: |a| < i < |s| ==> s[i] == b[i - |a| - 1];
    assert forall i :: |c| < i < |s| ==> s[i] == d[i - |c| - 1];
    assert |a| == |c|;
    assert a == s[..|a|] && c == s[..|c|];
    assert b == s[|a| + 1..] && d == s[|c| + 1..];
  }

  lemma ToStringInjective(p: Endpoint, q: Endpoint)
    requires p.ToString() == q.ToString()
    ensures p == q
  {
    SplitLast(COLON, p.ip, Digits(p.port), q.ip, Digits(q.port));
    DigitsInjective(p.port, q.port);
  }

  lemma ToStringNoDash(p: Endpoint)
    requires p.Valid()
    ensures DASH !in p.ToString()
  {
  }

  /**
   Two flows have the same key exactly when they join the same two endpoints, in either
   direction.
   */
  lemma KeyExactly(a: Endpoint, b: Endpoint, c: Endpoint, d: Endpoint)
    requires a.Valid() && b.Valid() && c.Valid() && d.Valid()
    ensures Key(a, b) == Key(c, d) <==> (a == c && b == d) || (a == d && b == c)
  {
    var s, t, u, v := a.ToString(), b.ToString(), c.ToString(), d.ToString();
    LessTotal(s, t);
    ToStringNoDash(a);
    ToStringNoDash(b);
    ToStringNoDash(c);
    ToStringNoDash(d);
    if Key(a, b) == Key(c, d) {
      var (lo, hi) := if Less(s, t) then (s, t) else (t, s);
      var (lo', hi') := if Less(u, v) then (u, v) else (v, u);
      SplitFirst(DASH, lo, hi, lo', hi');
      if s == u {
        ToStringInjective(a, c);
        ToStringInjective(b, d);
      } else {
        ToStringInjective(a, d);
        ToStringInjective(b, c);
      }
    }
  }
}
