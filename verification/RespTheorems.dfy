/** RESP framing is exact: commands and replies are read to their last byte and no further. */
module RespTheorems {
  import opened Wrappers
  import opened Bytes
  import opened ByteReader
  import opened Decimal
  import opened Seqs
  import opened Resp

  // Lines.

  lemma {:induction false} NewlineAfter(line: seq<Byte>, tail: seq<Byte>)
    requires LF !in line
    ensures Newline(line + (CRLF + tail)) == |line| + 1
    decreases |line|
  {
    var s := line + (CRLF + tail);
    if line == [] {
      assert s[0] == CR && s[1] == LF;
      assert Newline(s[1..]) == 0;
    } else {
      NewlineAfter(line[1..], tail);
      assert s[1..] == line[1..] + (CRLF + tail);
    }
  }

  lemma TrimLine(line: seq<Byte>)
    requires line != [] ==> line[|line| - 1] !in {CR, LF}
    ensures TrimRight(line + CRLF) == line
  {
    var s := line + CRLF;
    assert s[..|s| - 1] == line + [CR];
    assert (line + [CR])[..|line|] == line;
    assert TrimRight(line) == line;
  }

  lemma LineReads(line: seq<Byte>, tail: seq<Byte>)
    requires LF !in line && (line != [] ==> line[|line| - 1] != CR)
    ensures ReadLine(line + (CRLF + tail)) == Got(line, tail)
  {
    var s := line + (CRLF + tail);
    NewlineAfter(line, tail);
    TrimLine(line);
    assert s[..|line| + 2] == line + CRLF;
    assert s[|line| + 2..] == tail;
  }

  // Numbers.

  lemma DigitsAll(n: nat)
    ensures forall i :: 0 <= i < |Digits(n)| ==> IsDigit(Digits(n)[i])
  {
    assert forall i :: 0 <= i < |Digits(n)| ==> Digits(n)[i] in Digits(n);
  }

  lemma AtoiFormat(i: int)
    requires -MAX_INT - 1 <= i <= MAX_INT
    ensures Atoi(FormatInt(i)) == Some(i)
  {
    hide Digits, Undigits;
    var n := if i < 0 then -i else i;
    DigitsAll(n);
    UndigitsDigits(n);
    if i < 0 {
      assert FormatInt(i)[1..] == Digits(n);
    }
  }

  /** Digits after an optional sign are a number, leading zeros or not, if it fits 64 bits. */
  lemma AtoiReads(sign: seq<Byte>, zeros: seq<Byte>, n: nat)
    requires sign in {[], [PLUS], [MINUS]} && forall i :: 0 <= i < |zeros| ==> zeros[i] == ZERO
    ensures var v: int := if sign == [MINUS] then -(n as int) else n;
            Atoi(sign + (zeros + Digits(n))) == if -MAX_INT - 1 <= v <= MAX_INT then Some(v) else None
  {
    hide Digits, Undigits;
    var ds := zeros + Digits(n);
    DigitsAll(n);
    ZerosFirst(zeros, n);
    assert (sign + ds)[|sign|..] == ds;
    forall i | 0 <= i < |ds|
      ensures IsDigit(ds[i])
    {
      assert i >= |zeros| ==> ds[i] == Digits(n)[i - |zeros|];
    }
  }

  lemma {:induction false} ZerosFirst(zeros: seq<Byte>, n: nat)
    requires forall i :: 0 <= i < |zeros| ==> zeros[i] == ZERO
    ensures Undigits(zeros + Digits(n)) == n
  {
    UndigitsDigits(n);
    ZerosBefore(zeros, Digits(n));
  }

  lemma {:induction false} ZerosBefore(zeros: seq<Byte>, s: seq<Byte>)
    requires forall i :: 0 <= i < |zeros| ==> zeros[i] == ZERO
    ensures Undigits(zeros + s) == Undigits(s)
    decreases |zeros| + |s|
  {
    var all := zeros + s;
    if s != [] {
      assert all[..|all| - 1] == zeros + s[..|s| - 1];
      ZerosBefore(zeros, s[..|s| - 1]);
    } else if zeros != [] {
      assert all[..|all| - 1] == zeros[..|zeros| - 1] + [];
      ZerosBefore(zeros[..|zeros| - 1], []);
    }
  }

  /** Nothing else is one: no text without a digit, and none with another character than a sign in front. */
  lemma AtoiFails(s: seq<Byte>)
    requires || s == [] || s == [PLUS] || s == [MINUS]
             || !(48 <= s[0] <= 57 || s[0] == PLUS || s[0] == MINUS)
             || exists i :: 0 < i < |s| && !(48 <= s[i] <= 57)
    ensures Atoi(s).None?
  {
    hide Undigits;
    if s != [] {
      var signed := s[0] == MINUS || s[0] == PLUS;
      var ds := if signed then s[1..] else s;
      if i :| 0 < i < |s| && !(48 <= s[i] <= 57) {
        assert ds[if signed then i - 1 else i] in ds;
      } else if ds != [] {
        assert ds[0] in ds;
      }
    }
  }

  lemma HeaderLine(mark: Byte, n: int, tail: seq<Byte>)
    requires mark !in {CR, LF}
    ensures ReadLine(Header(mark, n) + (CRLF + tail)) == Got(Header(mark, n), tail)
    ensures Header(mark, n) != [] && Header(mark, n)[0] == mark && Header(mark, n)[1..] == FormatInt(n)
    ensures -MAX_INT - 1 <= n <= MAX_INT ==> Atoi(Header(mark, n)[1..]) == Some(n)
  {
    hide Digits, Undigits, Newline, TrimRight, ReadLine, Atoi;
    var ds := FormatInt(n);
    DigitsAll(if n < 0 then -n else n);
    if -MAX_INT - 1 <= n <= MAX_INT {
      AtoiFormat(n);
    }
    assert Header(mark, n)[1..] == ds;
    forall b | b in Header(mark, n)
      ensures b != LF && b != CR
    {
      var k :| 0 <= k < |Header(mark, n)| && Header(mark, n)[k] == b;
      assert k > 0 ==> b == ds[k - 1];
    }
    LineReads(Header(mark, n), tail);
  }

  // Commands.

  lemma {:induction false} BulksRead(bs: seq<seq<Byte>>, tail: seq<Byte>)
    requires forall i :: 0 <= i < |bs| ==> |bs[i]| + 2 <= MAX_ALLOC
    ensures ReadArgs(EncodeBulks(bs) + tail, |bs|) == Got(bs, tail)
    decreases |bs|
  {
    hide ReadLine, Atoi, Header;
    if bs == [] {
      EmptyLeft(EncodeBulks(bs), tail);
    } else {
      var b, rest := bs[0], bs[1..];
      var after := EncodeBulks(rest) + tail;
      BulkShape(b, EncodeBulks(rest), tail);
      HeaderLine(DOLLAR, |b|, b + (CRLF + after));
      BulkParts(b, after);
      BulksRead(rest, tail);
      HeadTail(bs);
    }
  }

  lemma BulkShape(b: seq<Byte>, more: seq<Byte>, tail: seq<Byte>)
    ensures EncodeBulk(b) + more + tail == Header(DOLLAR, |b|) + (CRLF + (b + (CRLF + (more + tail))))
  {
    hide Header;
  }

  lemma BulkParts(b: seq<Byte>, after: seq<Byte>)
    ensures var s := b + (CRLF + after); |s| >= |b| + 2 && s[..|b|] == b && s[|b| + 2..] == after
  {
  }

  lemma ConsShape(head: seq<Byte>, body: seq<Byte>, tail: seq<Byte>)
    ensures head + (CRLF + body) + tail == head + (CRLF + (body + tail))
  {
  }

  /** What a command of an array of arguments is reported as. */
  function Reported(args: seq<seq<Byte>>, lib: Library): Command {
    Command(if args == [] then [] else lib.upper(args[0]), args, |args|)
  }

  lemma CommandReads(args: seq<seq<Byte>>, lib: Library, tail: seq<Byte>)
    requires Fits(args)
    ensures ReadCommand(EncodeCommand(args) + tail, lib) == Got(Reported(args, lib), tail)
  {
    hide ReadLine, Atoi, Header, EncodeBulks, ReadArgs;
    ConsShape(Header(STAR, |args|), EncodeBulks(args), tail);
    HeaderLine(STAR, |args|, EncodeBulks(args) + tail);
    BulksRead(args, tail);
  }

  /**
   A line that is not empty and starts with no star is an inline command: its first word in upper
   case is the name, the words after it are the arguments, and all words are counted.
   */
  lemma InlineReads(line: seq<Byte>, words: seq<seq<Byte>>, lib: Library, tail: seq<Byte>)
    requires OneLine(line) && line != [] && line[0] != STAR && lib.fields(line) == words
    ensures var r := ReadCommand(line + (CRLF + tail), lib);
            && r.Got? && r.rest == tail
            && r.value.argCount == |words|
            && r.value.name == (if words == [] then [] else lib.upper(words[0]))
            && |r.value.args| == (if words == [] then 0 else |words| - 1)
            && forall i :: 0 < i < |words| ==> r.value.args[i - 1] == words[i]
  {
    hide ReadLine, Atoi;
    LineReads(line, tail);
  }

  // Replies.

  lemma TextReads(mark: Byte, text: seq<Byte>, tail: seq<Byte>)
    requires mark in {PLUS, MINUS} && OneLine(text)
    ensures ReadReply(([mark] + text + CRLF) + tail) == Got(Response(mark, text, mark == MINUS), tail)
  {
    hide ReadLine, Atoi, ReadReplies;
    var line := [mark] + text;
    assert line + CRLF + tail == line + (CRLF + tail);
    LineReads(line, tail);
    ConsTail(mark, text);
  }

  lemma NumberReads(mark: Byte, n: int, tail: seq<Byte>)
    requires mark == COLON || (mark in {DOLLAR, STAR} && n == -1)
    ensures ReadReply((Header(mark, n) + CRLF) + tail) ==
            Got(if mark == COLON then Response(COLON, FormatInt(n), false)
                else Response(mark, if mark == DOLLAR then Ascii("(nil)") else Ascii("(nil array)"), false), tail)
  {
    hide ReadLine, Atoi, ReadReplies, Header, Digits, Ascii;
    Assoc(Header(mark, n), CRLF, tail);
    HeaderLine(mark, n, tail);
  }

  lemma BulkReads(b: seq<Byte>, tail: seq<Byte>)
    requires |b| + 2 <= MAX_ALLOC
    ensures ReadReply(EncodeBulk(b) + tail) == Got(Response(DOLLAR, b, false), tail)
  {
    hide ReadLine, Atoi, ReadReplies, Header, Ascii;
    BulkShape(b, [], tail);
    EmptyRight<Byte>(EncodeBulk(b), []);
    EmptyLeft<Byte>([], tail);
    HeaderLine(DOLLAR, |b|, b + (CRLF + tail));
    BulkParts(b, tail);
  }

  lemma ArrayReads(body: seq<Byte>, count: nat, parts: seq<seq<Byte>>, tail: seq<Byte>)
    requires 16 * count <= MAX_ALLOC && ReadReplies(body + tail, count) == Got(parts, tail)
    ensures ReadReply((Header(STAR, count) + (CRLF + body)) + tail)
            == Got(Response(STAR, ShowArray(count, parts), false), tail)
  {
    hide ReadLine, Atoi, ReadReplies, Header, Ascii, ShowArray;
    ConsShape(Header(STAR, count), body, tail);
    HeaderLine(STAR, count, body + tail);
  }

  /** The text of an array: up to four parts are all shown, of more the first three and the announced number. */
  lemma ArrayText(count: nat, parts: seq<seq<Byte>>)
    ensures var text, comma := ShowArray(count, parts), Ascii(", ");
            var open, close := Ascii("["), Ascii("]");
            && (|parts| == 0 ==> text == open + [] + close)
            && (|parts| == 1 ==> text == open + parts[0] + close)
            && (|parts| == 2 ==> text == open + (parts[0] + comma + parts[1]) + close)
            && (|parts| == 3 ==> text == open + (parts[0] + comma + (parts[1] + comma + parts[2])) + close)
            && (|parts| == 4 ==>
                  text == open + (parts[0] + comma + (parts[1] + comma + (parts[2] + comma + parts[3]))) + close)
            && (|parts| > 4 ==>
                  text == open + Digits(count) + Ascii(" elements: ") +
                          (parts[0] + comma + (parts[1] + comma + parts[2])) + Ascii(", ...]"))
  {
    hide Digits, Ascii, Join;
    JoinPieces(parts);
    if |parts| > 4 {
      JoinPieces(parts[..3]);
    }
  }

  lemma JoinPieces(parts: seq<seq<Byte>>)
    ensures var comma := Ascii(", ");
            && (|parts| == 0 ==> Join(parts) == [])
            && (|parts| == 1 ==> Join(parts) == parts[0])
            && (|parts| == 2 ==> Join(parts) == parts[0] + comma + parts[1])
            && (|parts| == 3 ==> Join(parts) == parts[0] + comma + (parts[1] + comma + parts[2]))
            && (|parts| == 4 ==> Join(parts) == parts[0] + comma + (parts[1] + comma + (parts[2] + comma + parts[3])))
    decreases |parts|
  {
    hide Ascii;
    if 1 < |parts| <= 4 {
      JoinPieces(parts[1..]);
    }
  }

  /** What an array reply is shown as, from what its items are shown as. */
  lemma ArrayShown(items: seq<RespValue>, tail: seq<Byte>)
    requires WellFormed(Array(items))
    ensures var r := ReadReply(Encode(Array(items)) + tail);
            && r.Got? && r.rest == tail && r.value.typ == STAR && !r.value.isError
            && r.value.value == ShowArray(|items|, seq(|items|, i requires 0 <= i < |items| => Shown(items[i]).value))
  {
    hide ReadReply, Encode, ShowArray, WellFormed;
    ReplyReads(Array(items), tail);
    ItemsShown(items);
  }

  lemma {:induction false} ItemsShown(items: seq<RespValue>)
    ensures ShownItems(items) == seq(|items|, i requires 0 <= i < |items| => Shown(items[i]).value)
    decreases |items|
  {
    hide Shown;
    if items != [] {
      ItemsShown(items[1..]);
    }
  }

  lemma RepliesStep(one: seq<Byte>, more: seq<Byte>, count: nat, sub: Response, parts: seq<seq<Byte>>, tail: seq<Byte>)
    requires count > 0 && ReadReply(one + (more + tail)) == Got(sub, more + tail)
    requires ReadReplies(more + tail, count - 1) == Got(parts, tail)
    ensures ReadReplies((one + more) + tail, count) == Got([sub.value] + parts, tail)
  {
    hide ReadReply;
    Assoc(one, more, tail);
  }

  /** Any nested reply is read to its last byte, whatever follows it. */
  lemma {:induction false} ReplyReads(v: RespValue, tail: seq<Byte>)
    requires WellFormed(v)
    ensures ReadReply(Encode(v) + tail) == Got(Shown(v), tail)
    decreases v, 0
  {
    hide ReadReply, ReadReplies, Header, EncodeBulk, EncodeItems, ShownItems, ShowArray, OneLine, Digits, Ascii;
    match v
    case Simple(t) => TextReads(PLUS, t, tail);
    case Error(t) => TextReads(MINUS, t, tail);
    case Integer(i) => NumberReads(COLON, i, tail);
    case Bulk(b) => BulkReads(b, tail);
    case NullBulk => NumberReads(DOLLAR, -1, tail);
    case NullArray => NumberReads(STAR, -1, tail);
    case Array(items) =>
      ItemsRead(items, tail);
      ArrayReads(EncodeItems(items), |items|, ShownItems(items), tail);
  }

  lemma {:induction false} ItemsRead(items: seq<RespValue>, tail: seq<Byte>)
    requires forall i :: 0 <= i < |items| ==> WellFormed(items[i])
    ensures ReadReplies(EncodeItems(items) + tail, |items|) == Got(ShownItems(items), tail)
    decreases items, 1
  {
    hide ReadReply, Encode, Shown, WellFormed;
    if items == [] {
      EmptyLeft(EncodeItems(items), tail);
    } else {
      var rest := items[1..];
      ReplyReads(items[0], EncodeItems(rest) + tail);
      ItemsRead(rest, tail);
      RepliesStep(Encode(items[0]), EncodeItems(rest), |items|, Shown(items[0]), ShownItems(rest), tail);
    }
  }
}
