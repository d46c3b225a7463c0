/**
 Sequence-number arithmetic of the assembler (tcpport/assembler.go): 32-bit values, the
 comparison the receive window sorts by, and how far that comparison agrees with the
 serial-number order of section 3.2 of RFC 1982.
 */
module TcpSeq {

  const MODULUS: int := 0x1_0000_0000
  const MAX_SEQ: int := 0xFFFF_FFFF
  const SEQ_WINDOW: int := 0xFFFF
  const HALF: int := 0x8000_0000

  type U32 = x: int | 0 <= x < MODULUS

  /** Addition and subtraction as the machine does them on uint32. */
  function Add(a: U32, b: int): (r: U32)
    ensures (r - a - b) % MODULUS == 0
  {
    (a + b) % MODULUS
  }

  function Sub(a: U32, b: U32): (r: U32)
    ensures (r - a + b) % MODULUS == 0
  {
    (a - b) % MODULUS
  }

  /** The conversion int32(x) of a uint32. */
  function AsInt32(x: U32): (r: int)
    ensures -HALF <= r < HALF
    ensures (r - x) % MODULUS == 0
  {
    if x < HALF then x else x - MODULUS
  }

  /**
   The comparison of the window. The first two branches convert a uint32 difference to a
   64-bit int without passing through int32, so they are never negative.
   */
  function Compare(seq1: U32, seq2: U32): int
  {
    if seq1 < SEQ_WINDOW && seq2 > MAX_SEQ - SEQ_WINDOW then
      Sub(Add(seq1, MAX_SEQ), seq2)
    else if seq2 < SEQ_WINDOW && seq1 > MAX_SEQ - SEQ_WINDOW then
      Sub(seq1, Add(MAX_SEQ, seq2))
    else
      AsInt32(Sub(seq1, seq2))
  }

  function Sign(x: int): int
  {
    if x < 0 then -1 else if x == 0 then 0 else 1
  }

  /** RFC 1982, section 3.2: s1 is less than s2. Undefined (false both ways) at distance 2^31. */
  predicate SerialLess(s1: U32, s2: U32)
  {
    (s1 < s2 && s2 - s1 < HALF) || (s1 > s2 && s1 - s2 > HALF)
  }

  /** The serial comparison as a sign; meaningful when the distance is not exactly 2^31. */
  function SerialSign(s1: U32, s2: U32): int
  {
    if s1 == s2 then 0 else if SerialLess(s1, s2) then -1 else 1
  }

  predicate AtHalfDistance(s1: U32, s2: U32)
  {
    s1 - s2 == HALF || s2 - s1 == HALF
  }

  /** The pairs on which a wrap branch gives the wrong answer. */
  predicate WrapMisordered(s1: U32, s2: U32)
  {
    || (s2 < SEQ_WINDOW && s1 > MAX_SEQ - SEQ_WINDOW)
    || (s1 == 0 && s2 == MAX_SEQ)
  }

  /**
   The comparison is the serial-number comparison exactly outside the region where the
   first number has not wrapped but the second has, and the single pair (0, 2^32 - 1).
   */
  lemma CompareIsSerialExactly(s1: U32, s2: U32)
    requires !AtHalfDistance(s1, s2)
    ensures Sign(Compare(s1, s2)) == SerialSign(s1, s2) <==> !WrapMisordered(s1, s2)
  {
  }

  /** At distance 2^31 each number compares below the other. */
  lemma CompareAtHalfDistance(s1: U32, s2: U32)
    requires AtHalfDistance(s1, s2)
    ensures Compare(s1, s2) == -HALF == Compare(s2, s1)
  {
  }

  /**
   In the wrapping region both numbers can compare at or above each other: 5 follows
   0xFFFFFFF0 in serial order, yet neither compares below the other.
   */
  lemma WrapCounterexample()
    ensures SerialLess(0xFFFF_FFF0, 5)
    ensures Compare(0xFFFF_FFF0, 5) > 0 && Compare(5, 0xFFFF_FFF0) > 0
    ensures SerialLess(MAX_SEQ, 0) && Compare(0, MAX_SEQ) == 0
  {
  }

  /**
   An epoch: a range of non-zero sequence numbers that does not wrap and is shorter
   than 2^31.
   */
  datatype Epoch = Epoch(lo: int, hi: int) {
    ghost predicate Valid()
    {
      0 < lo <= hi < MODULUS && hi - lo < HALF
    }

    ghost predicate Has(s: int)
    {
      lo <= s <= hi
    }
  }

  /** Within an epoch the comparison is integer subtraction, hence a strict total order. */
  lemma CompareInEpoch(e: Epoch, s1: U32, s2: U32)
    requires e.Valid() && e.Has(s1) && e.Has(s2)
    ensures Compare(s1, s2) == s1 - s2
    ensures !WrapMisordered(s1, s2) && !AtHalfDistance(s1, s2)
  {
  }
}
