/**
 A reference reader of JSON texts after sections 2 to 7 of RFC 8259. It is independent of the
 printer.
 */
module Json {
  import opened Wrappers
  import opened Bytes
  import opened Decimal
  import opened Utf8

  /** A number with a fraction or an exponent stays its text. */
  datatype Json =
    | JNull
    | JBool(b: bool)
    | JNum(n: int)
    | JReal(text: Unicode)
    | JStr(s: Unicode)
    | JObj(m: map<Unicode, Json>)
    | JArr(items: seq<Json>)

  const QUOTE: Rune := '\"' as int
  const BACKSLASH: Rune := '\\' as int
  const COMMA: Rune := ',' as int
  const COLON: Rune := ':' as int
  const LBRACE: Rune := '{' as int
  const RBRACE: Rune := '}' as int
  const LBRACKET: Rune := '[' as int
  const RBRACKET: Rune := ']' as int

  /** Section 2: white space. */
  function SkipWs(s: Unicode): (r: Unicode)
    ensures |r| <= |s|
  {
    if s != [] && s[0] in {0x20, 0x09, 0x0A, 0x0D} then SkipWs(s[1..]) else s
  }

  function HexValue(c: Rune): (r: Option<int>)
    ensures r.Some? ==> 0 <= r.value < 16
  {
    if '0' as int <= c <= '9' as int then Some(c - '0' as int)
    else if 'a' as int <= c <= 'f' as int then Some(c - 'a' as int + 10)
    else if 'A' as int <= c <= 'F' as int then Some(c - 'A' as int + 10)
    else None
  }

  /** Four hexadecimal digits. */
  function Hex4(s: Unicode): (r: Option<int>)
    ensures r.Some? ==> |s| >= 4 && 0 <= r.value < 0x1_0000
  {
    if |s| < 4 then None
    else
      var a :- HexValue(s[0]);
      var b :- HexValue(s[1]);
      var c :- HexValue(s[2]);
      var d :- HexValue(s[3]);
      Some(4096 * a + 256 * b + 16 * c + d)
  }

  /** Section 7: what follows a backslash; surrogates count only as a pair. */
  function Escaped(s: Unicode): (r: Option<(Rune, Unicode)>)
    ensures r.Some? ==> |r.value.1| < |s|
  {
    if s == [] then None
    else
      var c := s[0];
      if c == QUOTE || c == BACKSLASH || c == '/' as int then Some((c, s[1..]))
      else if c == 'b' as int then Some((0x08, s[1..]))
      else if c == 'f' as int then Some((0x0C, s[1..]))
      else if c == 'n' as int then Some((0x0A, s[1..]))
      else if c == 'r' as int then Some((0x0D, s[1..]))
      else if c == 't' as int then Some((0x09, s[1..]))
      else if c == 'u' as int then
        var hi :- Hex4(s[1..]);
        if hi < 0xD800 || 0xE000 <= hi then Some((hi, s[5..]))
        else if hi >= 0xDC00 || |s| < 11 || s[5] != BACKSLASH || s[6] != 'u' as int then None
        else
          var lo :- Hex4(s[7..]);
          if 0xDC00 <= lo < 0xE000
          then Some((0x1_0000 + 0x400 * (hi - 0xD800) + (lo - 0xDC00), s[11..]))
          else None
      else None
  }

  /** Section 7: the characters of a string up to and with its closing quote. */
  function Chars(s: Unicode): (r: Option<(Unicode, Unicode)>)
    ensures r.Some? ==> |r.value.1| < |s|
    decreases |s|
  {
    if s == [] || s[0] < 0x20 then None
    else if s[0] == QUOTE then Some(([], s[1..]))
    else if s[0] == BACKSLASH then
      var e :- Escaped(s[1..]);
      var rest :- Chars(e.1);
      Some(([e.0] + rest.0, rest.1))
    else
      var rest :- Chars(s[1..]);
      Some(([s[0]] + rest.0, rest.1))
  }

  /** How many digits a text starts with. */
  function DigitRun(s: Unicode): (n: nat)
    ensures n <= |s| && forall i :: 0 <= i < n ==> IsDigit(s[i])
    ensures n < |s| ==> !IsDigit(s[n])
  {
    if s != [] && IsDigit(s[0]) then 1 + DigitRun(s[1..]) else 0
  }

  /** Section 6: the length of the fraction a text starts with, if it is one or there is none. */
  function Fraction(s: Unicode): (r: Option<nat>)
    ensures r.Some? ==> r.value <= |s|
  {
    if s == [] || s[0] != '.' as int then Some(0)
    else
      var n := DigitRun(s[1..]);
      if n == 0 then None else Some(1 + n)
  }

  /** The same for an exponent. */
  function Exponent(s: Unicode): (r: Option<nat>)
    ensures r.Some? ==> r.value <= |s|
  {
    if s == [] || s[0] !in {'e' as int, 'E' as int} then Some(0)
    else
      var from := if |s| > 1 && s[1] in {'+' as int, MINUS} then 2 else 1;
      var n := DigitRun(s[from..]);
      if n == 0 then None else Some(from + n)
  }

  /** Section 6: a number, without leading zeros. */
  function Number(s: Unicode): (r: Option<(Json, Unicode)>)
    ensures r.Some? ==> |r.value.1| < |s|
  {
    var from := if s != [] && s[0] == MINUS then 1 else 0;
    var n := DigitRun(s[from..]);
    if n == 0 || (n > 1 && s[from] == ZERO) then None
    else
      var f :- Fraction(s[from + n..]);
      var e :- Exponent(s[from + n + f..]);
      var end := from + n + f + e;
      assert forall i :: 0 <= i < n ==> s[from..from + n][i] == s[from..][i];
      var whole := Undigits(s[from..from + n]);
      Some((if f + e > 0 then JReal(s[..end]) else JNum(if from == 1 then -whole else whole), s[end..]))
  }

  function Literal(s: Unicode, word: Unicode, j: Json): (r: Option<(Json, Unicode)>)
    requires word != []
    ensures r.Some? ==> |r.value.1| < |s|
  {
    if word <= s then Some((j, s[|word|..])) else None
  }

  /** Section 3: a value with white space in front of it. */
  function ReadValue(text: Unicode): (r: Option<(Json, Unicode)>)
    ensures r.Some? ==> |r.value.1| < |text|
    decreases |text|, 1
  {
    var s := SkipWs(text);
    if s == [] then None
    else if s[0] == LBRACE then
      var t := SkipWs(s[1..]);
      if t != [] && t[0] == RBRACE then Some((JObj(map[]), t[1..]))
      else
        var ms :- ReadMembers(s[1..], map[]);
        Some((JObj(ms.0), ms.1))
    else if s[0] == LBRACKET then
      var t := SkipWs(s[1..]);
      if t != [] && t[0] == RBRACKET then Some((JArr([]), t[1..]))
      else
        var vs :- ReadItems(s[1..]);
        Some((JArr(vs.0), vs.1))
    else if s[0] == QUOTE then
      var c :- Chars(s[1..]);
      Some((JStr(c.0), c.1))
    else if s[0] == MINUS || IsDigit(s[0]) then Number(s)
    else if s[0] == 't' as int then Literal(s, Ascii("true"), JBool(true))
    else if s[0] == 'f' as int then Literal(s, Ascii("false"), JBool(false))
    else Literal(s, Ascii("null"), JNull)
  }

  /** Section 4: members up to and with the closing brace; the last of equal names counts. */
  function ReadMembers(text: Unicode, m: map<Unicode, Json>): (r: Option<(map<Unicode, Json>, Unicode)>)
    ensures r.Some? ==> |r.value.1| < |text|
    decreases |text|, 0
  {
    var s := SkipWs(text);
    if s == [] || s[0] != QUOTE then None
    else
      var k :- Chars(s[1..]);
      var t := SkipWs(k.1);
      if t == [] || t[0] != COLON then None
      else
        var v :- ReadValue(t[1..]);
        var u := SkipWs(v.1);
        if u == [] then None
        else if u[0] == COMMA then ReadMembers(u[1..], m[k.0 := v.0])
        else if u[0] == RBRACE then Some((m[k.0 := v.0], u[1..]))
        else None
  }

  /** Section 5: items up to and with the closing bracket. */
  function ReadItems(text: Unicode): (r: Option<(seq<Json>, Unicode)>)
    ensures r.Some? ==> |r.value.1| < |text|
    decreases |text|, 2
  {
    var v :- ReadValue(text);
    var u := SkipWs(v.1);
    if u == [] then None
    else if u[0] == COMMA then
      var rest :- ReadItems(u[1..]);
      Some(([v.0] + rest.0, rest.1))
    else if u[0] == RBRACKET then Some(([v.0], u[1..]))
    else None
  }

  /** A JSON text: one value and nothing but white space after it. */
  function ReadText(text: Unicode): Option<Json>
  {
    var v :- ReadValue(text);
    if SkipWs(v.1) == [] then Some(v.0) else None
  }
}
