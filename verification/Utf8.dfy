/** UTF-8 as Go reads and writes it (utf8.DecodeRune, range over a string, strings.Builder.WriteRune). */
module Utf8 {
  import opened Bytes

  /** A code point. */
  type Rune = x: int | 0 <= x <= 0x10FFFF
  type Unicode = seq<Rune>

  /** What stands for a byte that does not start a well-formed sequence. */
  const REPLACEMENT: Rune := 0xFFFD

  predicate Surrogate(c: Rune) {
    0xD800 <= c < 0xE000
  }

  ghost predicate Scalars(t: Unicode) {
    forall c <- t :: !Surrogate(c)
  }

  // Decoding.

  /** The length of the sequences that start with a byte; zero for none. */
  function Size(b: Byte): (n: nat)
    ensures n <= 4
  {
    if b < 0x80 then 1
    else if 0xC2 <= b < 0xE0 then 2
    else if 0xE0 <= b < 0xF0 then 3
    else if 0xF0 <= b < 0xF5 then 4
    else 0
  }

  /** The second byte excludes overlong forms, surrogates and what lies beyond the last code point. */
  predicate Second(b: Byte, c: Byte) {
    && (if b == 0xE0 then 0xA0 else if b == 0xF0 then 0x90 else 0x80) <= c
    && c <= (if b == 0xED then 0x9F else if b == 0xF4 then 0x8F else 0xBF)
  }

  predicate Continues(b: Byte) {
    0x80 <= b < 0xC0
  }

  predicate WellFormed(s: seq<Byte>)
    requires s != []
  {
    var n := Size(s[0]);
    && 0 < n <= |s|
    && (n > 1 ==> Second(s[0], s[1]))
    && (n > 2 ==> Continues(s[2]))
    && (n > 3 ==> Continues(s[3]))
  }

  /** Six more bits behind those read before. */
  function More(high: nat, b: Byte): int {
    64 * high + (b as int - 0x80)
  }

  /** The first code point of a string and the number of its bytes. */
  function First(s: seq<Byte>): (r: (Rune, nat))
    requires s != []
    ensures 0 < r.1 <= |s| && !Surrogate(r.0)
  {
    var n := Size(s[0]);
    if !WellFormed(s) then (REPLACEMENT, 1)
    else if n == 1 then (s[0], 1)
    else if n == 2 then (More(s[0] - 0xC0, s[1]), 2)
    else if n == 3 then (More(More(s[0] - 0xE0, s[1]), s[2]), 3)
    else (More(More(More(s[0] - 0xF0, s[1]), s[2]), s[3]), 4)
  }

  function Runes(s: seq<Byte>): Unicode {
    if s == [] then [] else [First(s).0] + Runes(s[First(s).1..])
  }

  predicate Valid(s: seq<Byte>) {
    s == [] || (WellFormed(s) && Valid(s[First(s).1..]))
  }

  // Encoding.

  function EncodeRune(c: Rune): (b: seq<Byte>)
    ensures 1 <= |b| <= 4
  {
    if c < 0x80 then [c]
    else if c < 0x800 then [0xC0 + c / 64, 0x80 + c % 64]
    else if Surrogate(c) then [0xEF, 0xBF, 0xBD]
    else if c < 0x1_0000 then [0xE0 + c / 4096, 0x80 + c / 64 % 64, 0x80 + c % 64]
    else [0xF0 + c / 0x4_0000, 0x80 + c / 4096 % 64, 0x80 + c / 64 % 64, 0x80 + c % 64]
  }

  function Encode(t: Unicode): seq<Byte> {
    if t == [] then [] else EncodeRune(t[0]) + Encode(t[1..])
  }

  // One code point.

  lemma EncodedWellFormed(c: Rune, tail: seq<Byte>)
    requires !Surrogate(c)
    ensures WellFormed(EncodeRune(c) + tail)
  {
    var b := EncodeRune(c);
    var s := b + tail;
    assert forall i :: 0 <= i < |b| ==> s[i] == b[i];
  }

  lemma MoreDone(x: nat)
    ensures More(x / 64, 0x80 + x % 64) == x
    ensures x / 64 / 64 == x / 4096 && x / 4096 / 64 == x / 0x4_0000
  {
  }

  lemma EncodedFirst(c: Rune, tail: seq<Byte>)
    requires !Surrogate(c)
    ensures First(EncodeRune(c) + tail) == (c, |EncodeRune(c)|)
  {
    hide WellFormed, More, Second;
    var b := EncodeRune(c);
    var s := b + tail;
    EncodedWellFormed(c, tail);
    assert forall i :: 0 <= i < |b| ==> s[i] == b[i];
    MoreDone(c);
    MoreDone(c / 64);
    MoreDone(c / 4096);
  }

  lemma MoreUndone(high: nat, b: Byte)
    requires Continues(b)
    ensures More(high, b) / 64 == high && More(high, b) % 64 == b as int - 0x80
  {
  }

  lemma TwoEncoded(a: Byte, b: Byte)
    requires 0xC2 <= a < 0xE0 && Continues(b)
    ensures EncodeRune(More(a - 0xC0, b)) == [a, b]
  {
    MoreUndone(a - 0xC0, b);
  }

  lemma ThreeEncoded(a: Byte, b: Byte, c: Byte)
    requires 0xE0 <= a < 0xF0 && Second(a, b) && Continues(c)
    ensures 0x800 <= More(More(a - 0xE0, b), c) < 0x1_0000
    ensures EncodeRune(More(More(a - 0xE0, b), c)) == [a, b, c]
  {
    var high := More(a - 0xE0, b);
    MoreUndone(a - 0xE0, b);
    MoreUndone(high, c);
    MoreDone(More(high, c));
  }

  lemma FourEncoded(a: Byte, b: Byte, c: Byte, d: Byte)
    requires 0xF0 <= a < 0xF5 && Second(a, b) && Continues(c) && Continues(d)
    ensures 0x1_0000 <= More(More(More(a - 0xF0, b), c), d) <= 0x10_FFFF
    ensures EncodeRune(More(More(More(a - 0xF0, b), c), d)) == [a, b, c, d]
  {
    var high := More(a - 0xF0, b);
    var middle := More(high, c);
    MoreUndone(a - 0xF0, b);
    MoreUndone(high, c);
    MoreUndone(middle, d);
    MoreDone(More(middle, d));
  }

  lemma FirstEncoded(s: seq<Byte>)
    requires s != [] && WellFormed(s)
    ensures EncodeRune(First(s).0) == s[..First(s).1]
  {
    hide EncodeRune, More, Second, Continues;
    var n := Size(s[0]);
    if n == 1 {
      OneEncoded(s[0]);
    } else if n == 2 {
      SecondContinues(s[0], s[1]);
      TwoEncoded(s[0], s[1]);
    } else if n == 3 {
      ThreeEncoded(s[0], s[1], s[2]);
    } else {
      FourEncoded(s[0], s[1], s[2], s[3]);
    }
  }

  lemma OneEncoded(a: Byte)
    ensures a < 0x80 ==> EncodeRune(a) == [a]
  {
  }

  lemma SecondContinues(a: Byte, b: Byte)
    ensures Second(a, b) ==> Continues(b)
  {
  }

  // Whole strings.

  lemma {:induction false} RunesScalar(s: seq<Byte>)
    ensures Scalars(Runes(s))
    decreases |s|
  {
    hide First;
    if s != [] {
      RunesScalar(s[First(s).1..]);
    }
  }

  /** Decoding undoes encoding. */
  lemma {:induction false} DecodeEncode(t: Unicode)
    requires Scalars(t)
    ensures Valid(Encode(t)) && Runes(Encode(t)) == t
    decreases |t|
  {
    hide First, EncodeRune, WellFormed;
    if t != [] {
      var b, rest := EncodeRune(t[0]), Encode(t[1..]);
      EncodedFirst(t[0], rest);
      EncodedWellFormed(t[0], rest);
      assert (b + rest)[|b|..] == rest;
      DecodeEncode(t[1..]);
    }
  }

  lemma RunesStep(s: seq<Byte>)
    requires s != []
    ensures Encode(Runes(s)) == EncodeRune(First(s).0) + Encode(Runes(s[First(s).1..]))
    ensures Valid(s) <==> WellFormed(s) && Valid(s[First(s).1..])
    ensures s == s[..First(s).1] + s[First(s).1..]
  {
    hide First, EncodeRune, WellFormed;
    assert Runes(s)[0] == First(s).0 && Runes(s)[1..] == Runes(s[First(s).1..]);
  }

  /** Encoding undoes decoding exactly for valid strings; each byte that is not valid becomes three. */
  lemma {:induction false} EncodeDecodeExactly(s: seq<Byte>)
    ensures |Encode(Runes(s))| >= |s|
    ensures Valid(s) ==> Encode(Runes(s)) == s
    ensures !Valid(s) ==> |Encode(Runes(s))| > |s|
    decreases |s|
  {
    hide First, EncodeRune, Encode, Runes, WellFormed, Valid;
    if s == [] {
      NothingEncoded();
    } else {
      EncodeDecodeExactly(s[First(s).1..]);
      RunesStep(s);
      if WellFormed(s) {
        FirstEncoded(s);
      } else {
        NotWellFormed(s);
      }
    }
  }

  lemma NothingEncoded()
    ensures Encode(Runes([])) == [] && Valid([])
  {
  }

  lemma NotWellFormed(s: seq<Byte>)
    requires s != [] && !WellFormed(s)
    ensures First(s).1 == 1 && |EncodeRune(First(s).0)| == 3
  {
  }

  /** Different valid strings have different code points. */
  lemma RunesInjective(a: seq<Byte>, b: seq<Byte>)
    requires Valid(a) && Valid(b) && Runes(a) == Runes(b)
    ensures a == b
  {
    EncodeDecodeExactly(a);
    EncodeDecodeExactly(b);
  }
}
