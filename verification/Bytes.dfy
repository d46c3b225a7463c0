/** Bytes, and fixed-width integers in both byte orders. */
module Bytes {

  type Byte = x: int | 0 <= x < 256

  /** An ASCII literal. */
  function Ascii(s: string): (t: seq<Byte>)
    requires forall i :: 0 <= i < |s| ==> s[i] < 128 as char
    ensures |t| == |s| && forall i :: 0 <= i < |s| ==> t[i] == s[i] as int
  {
    seq(|s|, i requires 0 <= i < |s| => s[i] as int)
  }

  /** The unsigned value of a byte sequence, least significant byte first. */
  function Le(b: seq<Byte>): (r: nat)
  {
    if b == [] then 0 else b[0] + 256 * Le(b[1..])
  }

  /** The unsigned value of a byte sequence, most significant byte first. */
  function Be(b: seq<Byte>): (r: nat)
  {
    if b == [] then 0 else 256 * Be(b[..|b| - 1]) + b[|b| - 1]
  }

  /** Conversions of an unsigned value to the signed type of the same width. */
  function AsInt32(x: nat): int
  {
    if x < 0x8000_0000 then x else x - 0x1_0000_0000
  }

  function AsInt64(x: nat): int
  {
    if x < 0x8000_0000_0000_0000 then x else x - 0x1_0000_0000_0000_0000
  }

  function Pow256(n: nat): (r: nat)
    ensures r > 0
  {
    if n == 0 then 1 else 256 * Pow256(n - 1)
  }

  /** The low n bytes of x, least significant first, as a fixed-width store writes them. */
  function PutLe(x: nat, n: nat): (b: seq<Byte>)
    ensures |b| == n
  {
    if n == 0 then [] else [x % 256] + PutLe(x / 256, n - 1)
  }

  function PutBe(x: nat, n: nat): (b: seq<Byte>)
    ensures |b| == n
  {
    if n == 0 then [] else PutBe(x / 256, n - 1) + [x % 256]
  }

  lemma {:induction false} LePutLe(x: nat, n: nat)
    requires x < Pow256(n)
    ensures Le(PutLe(x, n)) == x
  {
    if n > 0 {
      LePutLe(x / 256, n - 1);
      assert PutLe(x, n)[1..] == PutLe(x / 256, n - 1);
    }
  }

  lemma {:induction false} BePutBe(x: nat, n: nat)
    requires x < Pow256(n)
    ensures Be(PutBe(x, n)) == x
  {
    if n > 0 {
      BePutBe(x / 256, n - 1);
      assert PutBe(x, n)[..n - 1] == PutBe(x / 256, n - 1);
    }
  }

  lemma {:induction false} LeBound(b: seq<Byte>)
    ensures Le(b) < Pow256(|b|)
  {
    if b != [] {
      LeBound(b[1..]);
    }
  }

  lemma {:induction false} BeBound(b: seq<Byte>)
    ensures Be(b) < Pow256(|b|)
  {
    if b != [] {
      BeBound(b[..|b| - 1]);
    }
  }

  lemma BeZeros(b: seq<Byte>)
    requires forall i :: 0 <= i < |b| ==> b[i] == 0
    ensures Be(b) == 0
  {
    if b != [] {
      BeZeros(b[..|b| - 1]);
    }
  }

  lemma PowersOf256()
    ensures Pow256(1) == 0x100
    ensures Pow256(2) == 0x1_0000
    ensures Pow256(4) == 0x1_0000_0000
    ensures Pow256(8) == 0x1_0000_0000_0000_0000
  {
    assert Pow256(2) == 256 * Pow256(1);
    assert Pow256(4) == 256 * Pow256(3) && Pow256(3) == 256 * Pow256(2);
    assert Pow256(8) == 256 * Pow256(7) && Pow256(7) == 256 * Pow256(6);
    assert Pow256(6) == 256 * Pow256(5) && Pow256(5) == 256 * Pow256(4);
  }
}
