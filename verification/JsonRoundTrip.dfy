/**
 Printed JSON reads back (mongoport/mongo_protocol.go): for every tree and every order in which its
 maps are walked the reference reader recovers the tree, unless a double is not a number.
 */
module JsonRoundTrip {
  import opened Wrappers
  import opened Bytes
  import opened Decimal
  import opened Tree
  import opened Utf8
  import opened Json
  import opened JsonPrinter
  import opened Seqs

  /** A text that is one number and nothing else. */
  predicate IsNumber(t: Unicode) {
    Number(t).Some? && Number(t).value.1 == []
  }

  /** All doubles, at any depth, have a number as their text. */
  ghost predicate Numeric(lib: Formats, o: Ordered)
    decreases o, 0
  {
    match o
    case ODoc(fields) => NumericFields(lib, fields)
    case OArr(items) => NumericItems(lib, items)
    case ODouble(bits) => IsNumber(lib.double(bits))
    case _ => true
  }

  ghost predicate NumericFields(lib: Formats, fields: seq<Field>)
    decreases fields, 1
  {
    fields == [] || (Numeric(lib, fields[0].val) && NumericFields(lib, fields[1..]))
  }

  ghost predicate NumericItems(lib: Formats, items: seq<Ordered>)
    decreases items, 1
  {
    items == [] || (Numeric(lib, items[0]) && NumericItems(lib, items[1..]))
  }

  /** What a walk of a tree is as JSON: strings by their code points, a later name replacing an earlier one. */
  ghost function JsonOf(lib: Formats, o: Ordered): Json
    requires Numeric(lib, o)
    decreases o, 0
  {
    match o
    case ONull => JNull
    case OBool(b) => JBool(b)
    case OInt32(i) => JNum(i)
    case OInt64(i) => JNum(i)
    case OStr(s) => JStr(Runes(s))
    case ODoc(fields) => JObj(JsonMembers(lib, map[], fields))
    case OArr(items) => JArr(JsonItems(lib, items))
    case ODouble(bits) => Number(lib.double(bits)).value.0
    case OTime(ms) => JStr(Runes(lib.time(ms)))
  }

  ghost function JsonMembers(lib: Formats, m: map<Unicode, Json>, fields: seq<Field>): map<Unicode, Json>
    requires NumericFields(lib, fields)
    decreases fields, 1
  {
    if fields == [] then m
    else JsonMembers(lib, m[Runes(fields[0].key) := JsonOf(lib, fields[0].val)], fields[1..])
  }

  ghost function JsonItems(lib: Formats, items: seq<Ordered>): (js: seq<Json>)
    requires NumericItems(lib, items)
    ensures |js| == |items|
    decreases items, 1
  {
    if items == [] then [] else [JsonOf(lib, items[0])] + JsonItems(lib, items[1..])
  }

  // Strings

  lemma HexDigitValue(n: int)
    requires 0 <= n < 16
    ensures HexValue(HexDigit(n)) == Some(n)
  {
  }

  /** What reading the rest of a string gives once c has been read in front of it. */
  ghost function After(c: Rune, r: Option<(Unicode, Unicode)>): Option<(Unicode, Unicode)>
  {
    if r.None? then None else Some(([c] + r.value.0, r.value.1))
  }

  lemma CharsPlain(c: Rune, t: Unicode)
    requires c >= 0x20 && c != QUOTE && c != BACKSLASH
    ensures Chars([c] + t) == After(c, Chars(t))
  {
    assert ([c] + t)[1..] == t;
  }

  lemma CharsBackslash(e: Unicode, t: Unicode, c: Rune)
    requires Escaped(e + t) == Some((c, t))
    ensures Chars([BACKSLASH] + (e + t)) == After(c, Chars(t))
  {
    hide Escaped;
    assert ([BACKSLASH] + (e + t))[1..] == e + t;
  }

  lemma EscapedShort(x: Rune, t: Unicode)
    requires x in {QUOTE, BACKSLASH, 'n' as int, 'r' as int, 't' as int}
    ensures Escaped([x] + t) ==
            Some((if x == 'n' as int then 0x0A else if x == 'r' as int then 0x0D else if x == 't' as int then 0x09 else x, t))
  {
    assert ([x] + t)[1..] == t;
  }

  lemma Hex4Of(c: Rune, s: Unicode)
    requires c < 0x20 && |s| >= 4
    requires s[0] == '0' as int && s[1] == '0' as int && s[2] == HexDigit(c / 16) && s[3] == HexDigit(c % 16)
    ensures Hex4(s) == Some(c)
  {
    HexDigitValue(c / 16);
    HexDigitValue(c % 16);
    assert HexValue('0' as int) == Some(0);
  }

  lemma EscapedUnicode(c: Rune, t: Unicode)
    requires c < 0x20
    ensures Escaped(['u' as int, '0' as int, '0' as int, HexDigit(c / 16), HexDigit(c % 16)] + t) == Some((c, t))
  {
    hide Hex4;
    var s := ['u' as int, '0' as int, '0' as int, HexDigit(c / 16), HexDigit(c % 16)] + t;
    Hex4Of(c, s[1..]);
    assert s[5..] == t;
  }

  /** Reading one escaped code point. */
  lemma CharsStep(c: Rune, t: Unicode)
    ensures Chars(EscapeRune(c) + t) == After(c, Chars(t))
  {
    hide Chars, Escaped, After;
    var e := EscapeRune(c);
    if |e| == 1 {
      CharsPlain(c, t);
    } else {
      assert e == [BACKSLASH] + e[1..];
      assert e + t == [BACKSLASH] + (e[1..] + t);
      if |e| == 2 {
        EscapedShort(e[1], t);
        assert e[1..] == [e[1]];
      } else {
        EscapedUnicode(c, t);
        assert e[1..] == ['u' as int, '0' as int, '0' as int, HexDigit(c / 16), HexDigit(c % 16)];
      }
      CharsBackslash(e[1..], t, c);
    }
  }

  /** The escapes are the short ones where there are any, and lower-case digits elsewhere. */
  lemma EscapeForms(c: Rune)
    ensures EscapeRune(QUOTE) == Ascii("\\\"") && EscapeRune(BACKSLASH) == Ascii("\\\\")
    ensures EscapeRune(0x0A) == Ascii("\\n") && EscapeRune(0x0D) == Ascii("\\r") && EscapeRune(0x09) == Ascii("\\t")
    ensures c < 0x20 && c !in {0x09, 0x0A, 0x0D} ==>
              var e := EscapeRune(c);
              && |e| == 6 && e[..5] == Ascii(if c < 0x10 then "\\u000" else "\\u001")
              && (48 <= e[5] <= 57 || 97 <= e[5] <= 102) && HexValue(e[5]) == Some(c % 16)
    ensures c >= 0x20 && c != QUOTE && c != BACKSLASH ==> EscapeRune(c) == [c]
  {
  }

  lemma CharsEnd(e: Unicode, tail: Unicode)
    requires |e| == 0
    ensures Chars(e + ([QUOTE] + tail)) == Some(([], tail))
  {
    assert ([QUOTE] + tail)[1..] == tail;
    EmptyLeft(e, [QUOTE] + tail);
  }

  lemma EscapeCons(s: Unicode, end: Unicode)
    requires s != []
    ensures Escape(s) + end == EscapeRune(s[0]) + (Escape(s[1..]) + end)
  {
    Assoc(EscapeRune(s[0]), Escape(s[1..]), end);
  }

  /** Unescaping inverts escaping. */
  lemma {:induction false} CharsEscape(s: Unicode, tail: Unicode)
    ensures Chars(Escape(s) + ([QUOTE] + tail)) == Some((s, tail))
    decreases |s|
  {
    hide Chars, EscapeRune;
    var end := [QUOTE] + tail;
    if s == [] {
      CharsEnd(Escape(s), tail);
    } else {
      CharsEscape(s[1..], tail);
      CharsStep(s[0], Escape(s[1..]) + end);
      EscapeCons(s, end);
      HeadTail(s);
    }
  }

  // Numbers

  /** What may follow a value inside a larger text. */
  ghost predicate Follows(tail: Unicode)
  {
    tail == [] || tail[0] in {COMMA, RBRACE, RBRACKET}
  }

  lemma {:induction false} DigitRunOnly(s: Unicode)
    requires forall i :: 0 <= i < |s| ==> IsDigit(s[i])
    ensures DigitRun(s) == |s|
    decreases |s|
  {
    if s != [] {
      DigitRunOnly(s[1..]);
    }
  }

  lemma {:induction false} DigitRunLocal(s: Unicode, tail: Unicode)
    requires tail == [] || !IsDigit(tail[0])
    ensures DigitRun(s + tail) == DigitRun(s)
    decreases |s|
  {
    if s == [] {
      assert s + tail == tail;
    } else {
      assert (s + tail)[1..] == s[1..] + tail;
      DigitRunLocal(s[1..], tail);
    }
  }

  lemma FractionLocal(s: Unicode, tail: Unicode)
    requires Follows(tail) && Fraction(s).Some?
    ensures Fraction(s + tail) == Fraction(s)
  {
    if s == [] {
      assert s + tail == tail;
    } else {
      assert (s + tail)[1..] == s[1..] + tail;
      DigitRunLocal(s[1..], tail);
    }
  }

  lemma ExponentLocal(s: Unicode, tail: Unicode)
    requires Follows(tail) && Exponent(s).Some?
    ensures Exponent(s + tail) == Exponent(s)
  {
    if s == [] {
      assert s + tail == tail;
    } else {
      var from := if |s| > 1 && s[1] in {'+' as int, MINUS} then 2 else 1;
      assert (s + tail)[from..] == s[from..] + tail;
      DigitRunLocal(s[from..], tail);
    }
  }

  /** Sign, digits, fraction and exponent at the front of a text, and their lengths. */
  ghost predicate Parts(s: Unicode, from: nat, n: nat, f: nat, e: nat) {
    && from == (if s != [] && s[0] == MINUS then 1 else 0) && from + n + f + e <= |s|
    && n == DigitRun(s[from..]) && n > 0 && (n > 1 ==> s[from] != ZERO)
    && Fraction(s[from + n..]) == Some(f) && Exponent(s[from + n + f..]) == Some(e)
  }

  lemma NumberHasParts(t: Unicode) returns (from: nat, n: nat, f: nat, e: nat)
    requires IsNumber(t)
    ensures Parts(t, from, n, f, e) && from + n + f + e == |t|
  {
    hide DigitRun, Fraction, Exponent, Undigits;
    from := if t != [] && t[0] == MINUS then 1 else 0;
    n := DigitRun(t[from..]);
    f := Fraction(t[from + n..]).value;
    e := Exponent(t[from + n + f..]).value;
  }

  lemma PartsNumber(s: Unicode, from: nat, n: nat, f: nat, e: nat)
    requires Parts(s, from, n, f, e)
    ensures var end, whole := from + n + f + e, Undigits(s[from..from + n]);
            Number(s) ==
              Some((if f + e > 0 then JReal(s[..end]) else JNum(if from == 1 then -whole else whole), s[end..]))
  {
    hide DigitRun, Fraction, Exponent, Undigits;
  }

  lemma PartsLocal(t: Unicode, tail: Unicode, from: nat, n: nat, f: nat, e: nat)
    requires Parts(t, from, n, f, e) && Follows(tail)
    ensures Parts(t + tail, from, n, f, e)
  {
    hide DigitRun, Fraction, Exponent;
    var s := t + tail;
    assert s[0] == t[0] && s[from] == t[from];
    Shifted(t, tail, from);
    Shifted(t, tail, from + n);
    Shifted(t, tail, from + n + f);
    DigitRunLocal(t[from..], tail);
    FractionLocal(t[from + n..], tail);
    ExponentLocal(t[from + n + f..], tail);
  }

  /** Whatever may follow a number does not change how it is read. */
  lemma NumberLocal(t: Unicode, tail: Unicode)
    requires IsNumber(t) && Follows(tail)
    ensures Number(t + tail) == Some((Number(t).value.0, tail))
  {
    hide *;
    var from, n, f, e := NumberHasParts(t);
    PartsNumber(t, from, n, f, e);
    PartsLocal(t, tail, from, n, f, e);
    PartsNumber(t + tail, from, n, f, e);
    Shifted(t, tail, from + n);
    Shifted(t, tail, |t|);
    assert t[..|t|] == t;
  }

  lemma Shifted(t: Unicode, tail: Unicode, k: nat)
    requires k <= |t|
    ensures (t + tail)[k..] == t[k..] + tail
    ensures forall j :: 0 <= j <= k ==> (t + tail)[j..k] == t[j..k]
    ensures k == |t| ==> (t + tail)[k..] == tail && (t + tail)[..k] == t
  {
  }

  lemma DigitsShape(n: nat)
    ensures Digits(n) != [] && (forall i :: 0 <= i < |Digits(n)| ==> IsDigit(Digits(n)[i]))
    ensures Digits(n)[0] == ZERO ==> |Digits(n)| == 1
    ensures Undigits(Digits(n)) == n
  {
    assert forall i :: 0 <= i < |Digits(n)| ==> Digits(n)[i] in Digits(n);
    UndigitsDigits(n);
  }

  /** A printed integer is a number. */
  lemma FormatIsNumber(i: int)
    ensures IsNumber(FormatInt(i)) && Number(FormatInt(i)).value.0 == JNum(i)
  {
    hide Digits, Undigits, DigitRun;
    var ds: Unicode := Digits(if i < 0 then -i else i);
    var t: Unicode := FormatInt(i);
    DigitsShape(if i < 0 then -i else i);
    DigitRunOnly(ds);
    var from := if i < 0 then 1 else 0;
    assert t[from..] == ds && t[from..from + |ds|] == ds && t[from + |ds|..] == [];
  }

  lemma SplitAt(s: Unicode, tail: Unicode)
    ensures (s + tail)[..|s|] == s && (s + tail)[|s|..] == tail
  {
  }

  // Values

  lemma WordReads(word: Unicode, j: Json, tail: Unicode)
    requires (word == Ascii("null") && j == JNull)
          || (word == Ascii("true") && j == JBool(true))
          || (word == Ascii("false") && j == JBool(false))
    ensures ReadValue(word + tail) == Some((j, tail))
  {
    hide Chars, Number, ReadMembers, ReadItems;
    SplitAt(word, tail);
    assert word <= word + tail;
  }

  lemma NumberReads(t: Unicode, tail: Unicode)
    requires IsNumber(t) && Follows(tail)
    ensures ReadValue(t + tail) == Some((Number(t).value.0, tail))
  {
    hide Chars, Number, ReadMembers, ReadItems, Follows;
    NumberOpens(t);
    NumberLocal(t, tail);
    SplitAt(t, tail);
    assert (t + tail)[0] == t[0];
  }

  lemma NumberOpens(t: Unicode)
    requires IsNumber(t)
    ensures t != [] && (t[0] == MINUS || IsDigit(t[0]))
  {
  }

  lemma StringReads(s: Text, tail: Unicode)
    ensures ReadValue(Quoted(s) + tail) == Some((JStr(Runes(s)), tail))
  {
    hide Chars, Number, ReadMembers, ReadItems, Escape, Runes;
    QuotedShape(s, tail);
    CharsEscape(Runes(s), tail);
    ConsTail(QUOTE, Escape(Runes(s)) + ([QUOTE] + tail));
  }

  lemma QuotedShape(s: Text, tail: Unicode)
    ensures Quoted(s) + tail == [QUOTE] + (Escape(Runes(s)) + ([QUOTE] + tail))
  {
    hide Escape, Runes;
    Assoc([QUOTE], Escape(Runes(s)) + [QUOTE], tail);
    Assoc(Escape(Runes(s)), [QUOTE], tail);
  }

  /** A text that starts with neither white space nor a given closing mark. */
  ghost predicate Opens(t: Unicode, close: Rune)
  {
    t != [] && t[0] !in {0x20, 0x09, 0x0A, 0x0D} && t[0] != close
  }

  lemma ObjectReads(inner: Unicode)
    requires Opens(inner, RBRACE)
    ensures ReadValue([LBRACE] + inner) ==
            var r := ReadMembers(inner, map[]);
            if r.None? then None else Some((JObj(r.value.0), r.value.1))
  {
    hide Chars, Number, ReadMembers, ReadItems;
    ConsTail(LBRACE, inner);
  }

  lemma ArrayReads(inner: Unicode)
    requires Opens(inner, RBRACKET)
    ensures ReadValue([LBRACKET] + inner) ==
            var r := ReadItems(inner);
            if r.None? then None else Some((JArr(r.value.0), r.value.1))
  {
    hide Chars, Number, ReadMembers, ReadItems;
    ConsTail(LBRACKET, inner);
  }

  lemma EmptyReads(tail: Unicode)
    ensures ReadValue([LBRACE] + ([RBRACE] + tail)) == Some((JObj(map[]), tail))
    ensures ReadValue([LBRACKET] + ([RBRACKET] + tail)) == Some((JArr([]), tail))
  {
    hide Chars, Number, ReadMembers, ReadItems;
    ConsTail(LBRACE, [RBRACE] + tail);
    ConsTail(RBRACE, tail);
    ConsTail(LBRACKET, [RBRACKET] + tail);
    ConsTail(RBRACKET, tail);
  }

  /** One member before a comma or brace: its value is read or the members are not. */
  lemma MemberReads(k: Text, pv: Unicode, u: Unicode, jm: map<Unicode, Json>)
    requires u != [] && u[0] in {COMMA, RBRACE}
    requires ReadValue(pv + u).Some? ==> ReadValue(pv + u).value.1 == u
    ensures var v, r := ReadValue(pv + u), ReadMembers(Quoted(k) + ([COLON] + (pv + u)), jm);
            && (v.None? ==> r.None?)
            && (v.Some? && u[0] == RBRACE ==> r == Some((jm[Runes(k) := v.value.0], u[1..])))
            && (v.Some? && u[0] == COMMA ==> r == ReadMembers(u[1..], jm[Runes(k) := v.value.0]))
  {
    hide Chars, Escape, Quoted, ReadValue, Runes;
    var after := [COLON] + (pv + u);
    QuotedShape(k, after);
    CharsEscape(Runes(k), after);
    ConsTail(QUOTE, Escape(Runes(k)) + ([QUOTE] + after));
    ConsTail(COLON, pv + u);
  }

  lemma ItemReads(pv: Unicode, u: Unicode)
    requires u != [] && u[0] in {COMMA, RBRACKET}
    requires ReadValue(pv + u).Some? ==> ReadValue(pv + u).value.1 == u
    ensures var v, r := ReadValue(pv + u), ReadItems(pv + u);
            && (v.None? ==> r.None?)
            && (v.Some? && u[0] == RBRACKET ==> r == Some(([v.value.0], u[1..])))
            && (v.Some? && u[0] == COMMA ==>
                  var rest := ReadItems(u[1..]);
                  r == if rest.None? then None else Some(([v.value.0] + rest.value.0, rest.value.1)))
  {
    hide ReadValue;
  }

  // The shapes of printed documents and arrays.

  lemma PrintFieldsShape(lib: Formats, fields: seq<Field>, tail: Unicode)
    requires fields != []
    ensures var k, pv, rest := fields[0].key, Print(lib, fields[0].val), fields[1..];
            PrintFields(lib, fields) + tail ==
            Quoted(k) + ([COLON] + (pv + (if rest == [] then tail else [COMMA] + (PrintFields(lib, rest) + tail))))
  {
    hide Quoted, Print;
    var q, pv, rest := Quoted(fields[0].key), Print(lib, fields[0].val), fields[1..];
    if rest == [] {
      Assoc(q, [COLON] + pv, tail);
      Assoc([COLON], pv, tail);
    } else {
      var more := [COMMA] + PrintFields(lib, rest);
      Assoc(q + ([COLON] + pv), more, tail);
      Assoc(q, [COLON] + pv, more + tail);
      Assoc([COLON], pv, more + tail);
      Assoc([COMMA], PrintFields(lib, rest), tail);
    }
  }

  lemma PrintItemsShape(lib: Formats, items: seq<Ordered>, tail: Unicode)
    requires items != []
    ensures var pv, rest := Print(lib, items[0]), items[1..];
            PrintItems(lib, items) + tail ==
            pv + (if rest == [] then tail else [COMMA] + (PrintItems(lib, rest) + tail))
  {
    hide Print;
    var pv, rest := Print(lib, items[0]), items[1..];
    if rest != [] {
      Assoc(pv, [COMMA] + PrintItems(lib, rest), tail);
      Assoc([COMMA], PrintItems(lib, rest), tail);
    }
  }

  lemma FollowsMark(u: Unicode)
    requires u != [] && u[0] in {COMMA, RBRACE, RBRACKET}
    ensures Follows(u)
  {
  }

  lemma QuotedOpens(k: Text, t: Unicode)
    requires |t| >= |Quoted(k)| && t[..|Quoted(k)|] == Quoted(k)
    ensures Opens(t, RBRACE)
  {
    assert t[0] == t[..|Quoted(k)|][0];
  }

  /** strconv writes a number, or one of three words for the doubles that are none. */
  ghost predicate Formatted(lib: Formats)
  {
    forall bits :: IsNumber(lib.double(bits)) || IsWord(lib.double(bits))
  }

  predicate IsWord(t: Unicode) {
    t == Ascii("NaN") || t == Ascii("+Inf") || t == Ascii("-Inf")
  }

  lemma WordFails(t: Unicode, tail: Unicode)
    requires IsWord(t)
    ensures ReadValue(t + tail).None? && Opens(t, RBRACKET)
  {
    hide Chars, ReadMembers, ReadItems;
    SplitAt(t, tail);
    assert (t + tail)[0] == t[0] && (t + tail)[1] == t[1];
  }

  lemma PrintOpens(lib: Formats, o: Ordered)
    requires Formatted(lib) || Numeric(lib, o)
    ensures Opens(Print(lib, o), RBRACKET)
  {
    hide Escape, PrintFields, PrintItems, FormatInt, Number, Runes;
    match o
    case OInt32(i) =>
      FormatIsNumber(i);
      NumberOpens(FormatInt(i));
    case OInt64(i) =>
      FormatIsNumber(i);
      NumberOpens(FormatInt(i));
    case ODouble(bits) =>
      if IsNumber(lib.double(bits)) {
        NumberOpens(lib.double(bits));
      } else {
        WordFails(lib.double(bits), []);
      }
    case _ =>
  }

  lemma OpensLonger(a: Unicode, t: Unicode)
    requires Opens(a, RBRACKET) && |t| >= |a| && t[..|a|] == a
    ensures Opens(t, RBRACKET)
  {
    assert t[0] == t[..|a|][0];
  }

  /** What reading a printed value gives, in whatever order its maps were walked, if it is read. */
  ghost function Back(lib: Formats, o: Ordered, tail: Unicode): Option<(Json, Unicode)>
  {
    if Numeric(lib, o) then Some((JsonOf(lib, o), tail)) else None
  }

  /** A printed value is read back to its last character, or not read if some double is not a number. */
  lemma {:induction false} ValueReads(lib: Formats, o: Ordered, tail: Unicode)
    requires Follows(tail) && (Formatted(lib) || Numeric(lib, o))
    ensures ReadValue(Print(lib, o) + tail) == Back(lib, o, tail)
    decreases o, 2
  {
    hide ReadValue, ReadMembers, ReadItems, PrintFields, PrintItems, JsonMembers, JsonItems, Quoted, Follows, FormatInt,
         IsNumber, IsWord, Number, NumericFields, NumericItems, Runes;
    match o
    case ONull => WordReads(Ascii("null"), JNull, tail);
    case OBool(b) => WordReads(if b then Ascii("true") else Ascii("false"), JBool(b), tail);
    case OInt32(i) =>
      FormatIsNumber(i);
      NumberReads(FormatInt(i), tail);
    case OInt64(i) =>
      FormatIsNumber(i);
      NumberReads(FormatInt(i), tail);
    case OStr(s) => StringReads(s, tail);
    case ODoc(fields) => DocReads(lib, fields, tail);
    case OArr(items) => ArrReads(lib, items, tail);
    case ODouble(bits) =>
      if IsNumber(lib.double(bits)) {
        NumberReads(lib.double(bits), tail);
      } else {
        WordFails(lib.double(bits), tail);
      }
    case OTime(ms) => StringReads(lib.time(ms), tail);
  }

  lemma FieldsNumeric(lib: Formats, fields: seq<Field>, jm: map<Unicode, Json>)
    requires fields != []
    ensures var o, rest := fields[0].val, fields[1..];
            && (NumericFields(lib, fields) <==> Numeric(lib, o) && NumericFields(lib, rest))
            && (NumericFields(lib, fields) ==>
                  JsonMembers(lib, jm, fields) == JsonMembers(lib, jm[Runes(fields[0].key) := JsonOf(lib, o)], rest))
  {
    hide Numeric, JsonOf, Runes;
  }

  lemma NoMembers(lib: Formats, jm: map<Unicode, Json>)
    ensures NumericFields(lib, []) && JsonMembers(lib, jm, []) == jm && |PrintFields(lib, [])| == 0
  {
  }

  /** Members read back, onto whatever has been read before. */
  lemma {:induction false} MembersRead(lib: Formats, fields: seq<Field>, jm: map<Unicode, Json>, tail: Unicode)
    requires fields != [] && (Formatted(lib) || NumericFields(lib, fields))
    ensures ReadMembers(PrintFields(lib, fields) + ([RBRACE] + tail), jm)
            == if NumericFields(lib, fields) then Some((JsonMembers(lib, jm, fields), tail)) else None
    decreases fields, 1
  {
    hide ReadMembers, ReadValue, PrintFields, Print, Numeric, NumericFields, JsonOf, JsonMembers, Quoted, Runes,
         Formatted, Follows;
    var k, o, rest := fields[0].key, fields[0].val, fields[1..];
    var end := [RBRACE] + tail;
    var u := if rest == [] then end else [COMMA] + (PrintFields(lib, rest) + end);
    PrintFieldsShape(lib, fields, end);
    FieldsNumeric(lib, fields, jm);
    FollowsMark(u);
    ValueReads(lib, o, u);
    MemberReads(k, Print(lib, o), u, jm);
    if Numeric(lib, o) {
      var jm' := jm[Runes(k) := JsonOf(lib, o)];
      if rest == [] {
        ConsTail(RBRACE, tail);
        NoMembers(lib, jm');
      } else {
        ConsTail(COMMA, PrintFields(lib, rest) + end);
        MembersRead(lib, rest, jm', tail);
      }
    }
  }

  lemma ItemsNumeric(lib: Formats, items: seq<Ordered>)
    requires items != []
    ensures var o, rest := items[0], items[1..];
            && (NumericItems(lib, items) <==> Numeric(lib, o) && NumericItems(lib, rest))
            && (NumericItems(lib, items) ==> JsonItems(lib, items) == [JsonOf(lib, o)] + JsonItems(lib, rest))
  {
    hide Numeric, JsonOf;
  }

  lemma NoItems(lib: Formats)
    ensures NumericItems(lib, []) && JsonItems(lib, []) == [] && |PrintItems(lib, [])| == 0
  {
  }

  lemma {:induction false} ItemsRead(lib: Formats, items: seq<Ordered>, tail: Unicode)
    requires items != [] && (Formatted(lib) || NumericItems(lib, items))
    ensures ReadItems(PrintItems(lib, items) + ([RBRACKET] + tail))
            == if NumericItems(lib, items) then Some((JsonItems(lib, items), tail)) else None
    decreases items, 1
  {
    hide ReadItems, ReadValue, PrintItems, Print, Numeric, NumericItems, JsonOf, JsonItems, Formatted, Follows;
    var o, rest := items[0], items[1..];
    var end := [RBRACKET] + tail;
    var u := if rest == [] then end else [COMMA] + (PrintItems(lib, rest) + end);
    PrintItemsShape(lib, items, end);
    ItemsNumeric(lib, items);
    FollowsMark(u);
    ValueReads(lib, o, u);
    ItemReads(Print(lib, o), u);
    NoItems(lib);
    if Numeric(lib, o) {
      if rest == [] {
        ConsTail(RBRACKET, tail);
        EmptyRight([JsonOf(lib, o)], []);
      } else {
        ConsTail(COMMA, PrintItems(lib, rest) + end);
        ItemsRead(lib, rest, tail);
      }
    }
  }

  lemma {:induction false} DocReads(lib: Formats, fields: seq<Field>, tail: Unicode)
    requires Formatted(lib) || NumericFields(lib, fields)
    ensures ReadValue([LBRACE] + (PrintFields(lib, fields) + [RBRACE]) + tail)
            == if NumericFields(lib, fields) then Some((JObj(JsonMembers(lib, map[], fields)), tail)) else None
    decreases fields, 2
  {
    hide *;
    var inner := PrintFields(lib, fields) + ([RBRACE] + tail);
    Assoc([LBRACE], PrintFields(lib, fields) + [RBRACE], tail);
    Assoc(PrintFields(lib, fields), [RBRACE], tail);
    if fields == [] {
      NoMembers(lib, map[]);
      EmptyLeft(PrintFields(lib, fields), [RBRACE] + tail);
      EmptyReads(tail);
    } else {
      MembersRead(lib, fields, map[], tail);
      PrintFieldsShape(lib, fields, [RBRACE] + tail);
      QuotedOpens(fields[0].key, inner);
      ObjectReads(inner);
    }
  }

  lemma {:induction false} ArrReads(lib: Formats, items: seq<Ordered>, tail: Unicode)
    requires Formatted(lib) || NumericItems(lib, items)
    ensures ReadValue([LBRACKET] + (PrintItems(lib, items) + [RBRACKET]) + tail)
            == if NumericItems(lib, items) then Some((JArr(JsonItems(lib, items)), tail)) else None
    decreases items, 2
  {
    hide *;
    var inner := PrintItems(lib, items) + ([RBRACKET] + tail);
    Assoc([LBRACKET], PrintItems(lib, items) + [RBRACKET], tail);
    Assoc(PrintItems(lib, items), [RBRACKET], tail);
    if items == [] {
      NoItems(lib);
      EmptyLeft(PrintItems(lib, items), [RBRACKET] + tail);
      EmptyReads(tail);
    } else {
      ItemsRead(lib, items, tail);
      PrintItemsShape(lib, items, [RBRACKET] + tail);
      ItemsNumeric(lib, items);
      PrintOpens(lib, items[0]);
      OpensLonger(Print(lib, items[0]), inner);
      ArrayReads(inner);
    }
  }

  /**
   The text is JSON, of the tree in the order walked, if and only if every double has a number as
   its text.
   */
  lemma PrintedReadsBack(lib: Formats, o: Ordered)
    ensures Numeric(lib, o) ==> ReadText(Print(lib, o)) == Some(JsonOf(lib, o))
    ensures Formatted(lib) && !Numeric(lib, o) ==> ReadText(Print(lib, o)).None?
  {
    hide Print, ReadValue, JsonOf, Numeric, Formatted;
    assert Follows([]);
    if Formatted(lib) || Numeric(lib, o) {
      ValueReads(lib, o, []);
      EmptyRight(Print(lib, o), []);
    }
  }

  // Whatever the walk.

  ghost predicate Plain(lib: Formats, v: Value)
  {
    match v
    case Doc(m) => forall k <- m :: Plain(lib, m[k])
    case Arr(items) => forall i :: 0 <= i < |items| ==> Plain(lib, items[i])
    case Double(bits) => IsNumber(lib.double(bits))
    case _ => true
  }

  /** Different names have different code points; bytes that are no UTF-8 can make them equal. */
  ghost predicate Apart(keys: set<Text>)
  {
    forall a <- keys, b <- keys :: Runes(a) == Runes(b) ==> a == b
  }

  /** At every depth. */
  ghost predicate NamesApart(v: Value)
  {
    match v
    case Doc(m) => Apart(m.Keys) && forall k <- m :: NamesApart(m[k])
    case Arr(items) => forall i :: 0 <= i < |items| ==> NamesApart(items[i])
    case _ => true
  }

  ghost predicate Sayable(lib: Formats, v: Value)
  {
    Plain(lib, v) && NamesApart(v)
  }

  /** A decoded tree as JSON; the two integer widths are both numbers. */
  ghost function JsonOfValue(lib: Formats, v: Value): Json
    requires Sayable(lib, v)
    decreases v, 1
  {
    match v
    case Null => JNull
    case Bool(b) => JBool(b)
    case Int32(i) => JNum(i)
    case Int64(i) => JNum(i)
    case Str(s) => JStr(Runes(s))
    case Doc(_) => JObj(JsonOfDoc(lib, v))
    case Arr(items) => JArr(seq(|items|, i requires 0 <= i < |items| => JsonOfValue(lib, items[i])))
    case Double(bits) => Number(lib.double(bits)).value.0
    case Time(ms) => JStr(Runes(lib.time(ms)))
  }

  ghost function JsonOfDoc(lib: Formats, v: Value): map<Unicode, Json>
    requires v.Doc? && Sayable(lib, v)
    decreases v, 0
  {
    map k <- v.m :: Runes(k) := JsonOfValue(lib, v.m[k])
  }

  /** A walk that says what its tree says. */
  ghost predicate Says(lib: Formats, o: Ordered)
  {
    Numeric(lib, o) && Sayable(lib, Erase(o)) && JsonOf(lib, o) == JsonOfValue(lib, Erase(o))
  }

  lemma DocSayable(lib: Formats, m: map<Text, Value>)
    ensures Sayable(lib, Doc(m)) <==> Apart(m.Keys) && forall k <- m :: Sayable(lib, m[k])
  {
    hide Apart;
  }

  lemma DocUpdate(lib: Formats, m: map<Text, Value>, k: Text, v: Value)
    requires Sayable(lib, Doc(m)) && Sayable(lib, v) && Apart(m[k := v].Keys)
    ensures Sayable(lib, Doc(m[k := v]))
    ensures JsonOfDoc(lib, Doc(m[k := v])) == JsonOfDoc(lib, Doc(m))[Runes(k) := JsonOfValue(lib, v)]
  {
    hide JsonOfValue, Runes, Sayable;
    var n := m[k := v];
    DocSayable(lib, m);
    DocSayable(lib, n);
    assert m.Keys <= n.Keys && k in n.Keys;
  }

  lemma ApartBefore(m: map<Text, Value>, fields: seq<Field>)
    requires Apart(EraseOnto(m, fields).Keys)
    ensures Apart(m.Keys)
  {
    hide Erase, EraseOnto, Runes;
    forall k <- m
      ensures k in EraseOnto(m, fields).Keys
    {
      EraseOntoKeys(m, fields, k);
    }
  }

  lemma {:induction false} MembersSay(lib: Formats, fields: seq<Field>, m: map<Text, Value>)
    requires forall i :: 0 <= i < |fields| ==> Says(lib, fields[i].val)
    requires Sayable(lib, Doc(m)) && Apart(EraseOnto(m, fields).Keys)
    ensures NumericFields(lib, fields) && Sayable(lib, Doc(EraseOnto(m, fields)))
    ensures JsonMembers(lib, JsonOfDoc(lib, Doc(m)), fields) == JsonOfDoc(lib, Doc(EraseOnto(m, fields)))
    decreases |fields|
  {
    hide Numeric, JsonOf, JsonOfValue, JsonOfDoc, Sayable, Erase, Apart, Runes;
    if fields != [] {
      var k, o := fields[0].key, fields[0].val;
      assert Says(lib, o);
      ApartBefore(m[k := Erase(o)], fields[1..]);
      DocUpdate(lib, m, k, Erase(o));
      MembersSay(lib, fields[1..], m[k := Erase(o)]);
    }
  }

  lemma {:induction false} ItemsSay(lib: Formats, items: seq<Ordered>)
    requires forall i :: 0 <= i < |items| ==> Says(lib, items[i])
    ensures NumericItems(lib, items)
    ensures forall i :: 0 <= i < |items| ==>
              Sayable(lib, EraseAll(items)[i]) && JsonItems(lib, items)[i] == JsonOfValue(lib, EraseAll(items)[i])
    decreases |items|
  {
    hide Numeric, JsonOf, JsonOfValue, Sayable, Erase;
    if items != [] {
      assert Says(lib, items[0]);
      ItemsSay(lib, items[1..]);
    }
  }

  lemma {:induction false} EraseAllAt(items: seq<Ordered>, i: nat)
    requires i < |items|
    ensures EraseAll(items)[i] == Erase(items[i])
    decreases i
  {
    hide Erase;
    if i > 0 {
      EraseAllAt(items[1..], i - 1);
    }
  }

  /** The JSON read back depends on the tree alone and not on the order its maps were walked in. */
  lemma {:induction false} WalkSays(lib: Formats, o: Ordered)
    requires NoRepeats(o) && Sayable(lib, Erase(o))
    ensures Says(lib, o)
    decreases o
  {
    match o
    case ODoc(fields) =>
      DocSays(lib, fields);
    case OArr(items) =>
      ArrSays(lib, items);
    case _ =>
  }

  lemma {:induction false} DocSays(lib: Formats, fields: seq<Field>)
    requires NoRepeats(ODoc(fields)) && Sayable(lib, Doc(EraseOnto(map[], fields)))
    ensures Says(lib, ODoc(fields))
    decreases fields
  {
    hide Says, EraseOnto, JsonMembers, NumericFields;
    var m := EraseOnto(map[], fields);
    forall i | 0 <= i < |fields|
      ensures Says(lib, fields[i].val)
    {
      EraseOntoValue(map[], fields, i);
      WalkSays(lib, fields[i].val);
    }
    NothingSaid(lib);
    MembersSay(lib, fields, map[]);
    SaysDoc(lib, fields);
  }

  lemma NothingSaid(lib: Formats)
    ensures Sayable(lib, Doc(map[])) && JsonOfDoc(lib, Doc(map[])) == map[]
  {
  }

  lemma SaysDoc(lib: Formats, fields: seq<Field>)
    requires NumericFields(lib, fields) && Sayable(lib, Doc(EraseOnto(map[], fields)))
    requires JsonMembers(lib, map[], fields) == JsonOfDoc(lib, Doc(EraseOnto(map[], fields)))
    ensures Says(lib, ODoc(fields))
  {
    hide EraseOnto, JsonMembers, NumericFields, Sayable, JsonOfDoc;
  }

  lemma {:induction false} ArrSays(lib: Formats, items: seq<Ordered>)
    requires NoRepeats(OArr(items)) && Sayable(lib, Arr(EraseAll(items)))
    ensures Says(lib, OArr(items))
    decreases items
  {
    hide Says, EraseAll, JsonItems, NumericItems;
    forall i | 0 <= i < |items|
      ensures Says(lib, items[i])
    {
      EraseAllAt(items, i);
      WalkSays(lib, items[i]);
    }
    ItemsSay(lib, items);
    SaysArr(lib, items);
  }

  lemma SaysArr(lib: Formats, items: seq<Ordered>)
    requires NumericItems(lib, items) && Sayable(lib, Arr(EraseAll(items)))
    requires forall i :: 0 <= i < |items| ==>
               Sayable(lib, EraseAll(items)[i]) && JsonItems(lib, items)[i] == JsonOfValue(lib, EraseAll(items)[i])
    ensures Says(lib, OArr(items))
  {
    hide EraseAll, JsonItems, NumericItems;
    assert JsonOfValue(lib, Arr(EraseAll(items))).items == JsonItems(lib, items);
  }

  // Doubles, in the walk and in the tree.

  lemma {:induction false} NumericErases(lib: Formats, o: Ordered)
    requires Numeric(lib, o)
    ensures Plain(lib, Erase(o))
    decreases o, 0
  {
    match o
    case ODoc(fields) => FieldsErase(lib, map[], fields);
    case OArr(items) => ItemsErase(lib, items);
    case _ =>
  }

  lemma {:induction false} FieldsErase(lib: Formats, m: map<Text, Value>, fields: seq<Field>)
    requires NumericFields(lib, fields) && Plain(lib, Doc(m))
    ensures Plain(lib, Doc(EraseOnto(m, fields)))
    decreases fields, 1
  {
    if fields != [] {
      NumericErases(lib, fields[0].val);
      FieldsErase(lib, m[fields[0].key := Erase(fields[0].val)], fields[1..]);
    }
  }

  lemma {:induction false} ItemsErase(lib: Formats, items: seq<Ordered>)
    requires NumericItems(lib, items)
    ensures forall i :: 0 <= i < |items| ==> Plain(lib, EraseAll(items)[i])
    decreases items, 1
  {
    if items != [] {
      NumericErases(lib, items[0]);
      ItemsErase(lib, items[1..]);
    }
  }

  lemma {:induction false} PlainWalks(lib: Formats, o: Ordered)
    requires NoRepeats(o) && Plain(lib, Erase(o))
    ensures Numeric(lib, o)
    decreases o
  {
    hide EraseOnto, EraseAll;
    match o
    case ODoc(fields) =>
      forall i | 0 <= i < |fields|
        ensures Numeric(lib, fields[i].val)
      {
        EraseOntoValue(map[], fields, i);
        PlainWalks(lib, fields[i].val);
      }
      AllFieldsNumeric(lib, fields);
    case OArr(items) =>
      forall i | 0 <= i < |items|
        ensures Numeric(lib, items[i])
      {
        EraseAllAt(items, i);
        PlainWalks(lib, items[i]);
      }
      AllItemsNumeric(lib, items);
    case _ =>
  }

  lemma {:induction false} AllFieldsNumeric(lib: Formats, fields: seq<Field>)
    requires forall i :: 0 <= i < |fields| ==> Numeric(lib, fields[i].val)
    ensures NumericFields(lib, fields)
    decreases |fields|
  {
    hide Numeric;
    if fields != [] {
      AllFieldsNumeric(lib, fields[1..]);
    }
  }

  lemma {:induction false} AllItemsNumeric(lib: Formats, items: seq<Ordered>)
    requires forall i :: 0 <= i < |items| ==> Numeric(lib, items[i])
    ensures NumericItems(lib, items)
    decreases |items|
  {
    hide Numeric;
    if items != [] {
      AllItemsNumeric(lib, items[1..]);
    }
  }

  // The bytes of the text.

  lemma {:induction false} EscapeScalar(s: Unicode)
    requires Scalars(s)
    ensures Scalars(Escape(s))
    decreases |s|
  {
    if s != [] {
      EscapeScalar(s[1..]);
      assert s[0] in s && forall c <- s[1..] :: c in s;
    }
  }

  lemma QuotedScalar(s: Text)
    ensures Scalars(Quoted(s))
  {
    hide Escape, Runes;
    RunesScalar(s);
    EscapeScalar(Runes(s));
  }

  lemma ScalarsOf(t: seq<AsciiChar>)
    ensures Scalars(t)
  {
  }

  lemma FormatAscii(i: int)
    ensures Scalars(FormatInt(i))
  {
  }

  /** No printed text holds a surrogate, so its bytes are valid UTF-8. */
  lemma {:induction false} PrintScalar(lib: Formats, o: Ordered)
    ensures Scalars(Print(lib, o))
    decreases o, 0
  {
    hide Quoted, FormatInt, PrintFields, PrintItems;
    match o
    case OInt32(i) => FormatAscii(i);
    case OInt64(i) => FormatAscii(i);
    case OStr(s) => QuotedScalar(s);
    case ODoc(fields) => PrintFieldsScalar(lib, fields);
    case OArr(items) => PrintItemsScalar(lib, items);
    case ODouble(bits) => ScalarsOf(lib.double(bits));
    case OTime(ms) => QuotedScalar(lib.time(ms));
    case _ =>
  }

  lemma {:induction false} PrintFieldsScalar(lib: Formats, fields: seq<Field>)
    ensures Scalars(PrintFields(lib, fields))
    decreases fields, 1
  {
    hide Quoted, Print;
    if fields != [] {
      QuotedScalar(fields[0].key);
      PrintScalar(lib, fields[0].val);
      PrintFieldsScalar(lib, fields[1..]);
    }
  }

  lemma {:induction false} PrintItemsScalar(lib: Formats, items: seq<Ordered>)
    ensures Scalars(PrintItems(lib, items))
    decreases items, 1
  {
    hide Print;
    if items != [] {
      PrintScalar(lib, items[0]);
      PrintItemsScalar(lib, items[1..]);
    }
  }

  /** o is a walk of the document, and text its print as bytes. */
  ghost predicate PrintedBy(lib: Formats, m: map<Text, Value>, o: Ordered, text: Text)
  {
    Erase(o) == Doc(m) && NoRepeats(o) && text == Encode(Print(lib, o))
  }

  /** Text that some walk of the document prints. */
  ghost predicate IsPrint(lib: Formats, m: map<Text, Value>, text: Text)
  {
    exists o :: PrintedBy(lib, m, o, text)
  }

  /**
   Whatever the walk, the text is valid UTF-8 and JSON if and only if no double is without a number
   as its text. If moreover different names have different code points, it reads as the document.
   */
  lemma TextReadsBack(lib: Formats, m: map<Text, Value>, text: Text)
    requires IsPrint(lib, m, text) && Formatted(lib)
    ensures Valid(text)
    ensures ReadText(Runes(text)).Some? <==> Plain(lib, Doc(m))
    ensures Sayable(lib, Doc(m)) ==> ReadText(Runes(text)) == Some(JsonOfValue(lib, Doc(m)))
  {
    hide Print, Erase, NoRepeats, JsonOf, JsonOfValue, ReadText, Numeric, Plain, NamesApart, Runes, Valid, Formatted;
    var o :| PrintedBy(lib, m, o, text);
    PrintScalar(lib, o);
    DecodeEncode(Print(lib, o));
    PrintedReadsBack(lib, o);
    if Plain(lib, Doc(m)) {
      PlainWalks(lib, o);
    }
    if Numeric(lib, o) {
      NumericErases(lib, o);
    }
    if Sayable(lib, Doc(m)) {
      WalkSays(lib, o);
    }
  }

  /** Prints some walk of the document. */
  method MapToJSON(lib: Formats, m: map<Text, Value>) returns (text: Text)
    ensures IsPrint(lib, m, text)
    ensures Formatted(lib) ==> (ReadText(Runes(text)).Some? <==> Plain(lib, Doc(m)))
    ensures Formatted(lib) && Sayable(lib, Doc(m)) ==> ReadText(Runes(text)) == Some(JsonOfValue(lib, Doc(m)))
  {
    hide Print, Erase, NoRepeats, ReadText, Runes, Plain, Sayable, JsonOfValue, Formatted;
    var sb := new Builder();
    ghost var o := WriteJSONValue(lib, sb, Doc(m));
    text := sb.String();
    EmptyLeft<Rune>([], Print(lib, o));
    assert PrintedBy(lib, m, o, text);
    if Formatted(lib) {
      TextReadsBack(lib, m, text);
    }
  }

  // Names.

  /** Names that are valid UTF-8 are apart. */
  lemma ValidNamesApart(keys: set<Text>)
    requires forall k <- keys :: Valid(k)
    ensures Apart(keys)
  {
    hide Valid, Runes;
    forall a <- keys, b <- keys | Runes(a) == Runes(b)
      ensures a == b
    {
      RunesInjective(a, b);
    }
  }

  /** Two names that are not print the same. */
  lemma NamesCollide()
    ensures !Apart({[0x80], [0x81]})
  {
    assert Runes([0x80]) == [REPLACEMENT] + Runes([]) && Runes([0x81]) == [REPLACEMENT] + Runes([]);
  }
}
