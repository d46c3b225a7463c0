/** Decimal notation of integers, as strconv.Itoa and strconv.FormatInt write it, and hexadecimal. */
module Decimal {
  import opened Bytes

  const ZERO: Byte := 48
  const MINUS: Byte := 45

  predicate IsDigit(b: int)
  {
    48 <= b <= 57
  }

  predicate AllDigits(s: seq<Byte>)
  {
    forall b <- s :: IsDigit(b)
  }

  function Digits(n: nat): (s: seq<Byte>)
    ensures s != [] && AllDigits(s)
    ensures s[0] == ZERO <==> n == 0
  {
    if n < 10 then [ZERO + n] else Digits(n / 10) + [ZERO + n % 10]
  }

  function FormatInt(i: int): (s: seq<Byte>)
    ensures s != [] && (s[0] == MINUS <==> i < 0)
  {
    if i < 0 then [MINUS] + Digits(-i)
    else
      assert Digits(i)[0] in Digits(i);
      Digits(i)
  }

  function HexDigit(n: int): Byte
    requires 0 <= n < 16
  {
    if n < 10 then 48 + n else 87 + n
  }

  /** Two lower-case digits for each byte. */
  function Hex(b: seq<Byte>): seq<Byte> {
    if b == [] then [] else [HexDigit(b[0] / 16), HexDigit(b[0] % 16)] + Hex(b[1..])
  }

  /** The value a sequence of digits denotes. */
  function Undigits(s: seq<Byte>): int
  {
    if s == [] then 0 else 10 * Undigits(s[..|s| - 1]) + (s[|s| - 1] - ZERO)
  }

  lemma {:induction false} UndigitsDigits(n: nat)
    ensures Undigits(Digits(n)) == n
  {
    var s := Digits(n);
    if n < 10 {
      assert s[..0] == [];
    } else {
      UndigitsDigits(n / 10);
      assert s[..|s| - 1] == Digits(n / 10);
    }
  }

  lemma DigitsInjective(m: nat, n: nat)
    ensures Digits(m) == Digits(n) ==> m == n
  {
    UndigitsDigits(m);
    UndigitsDigits(n);
  }
}
