/**
 The RESP readers of redisport/resp_protocol.go as functions of the bytes that are left to read,
 and the wire form of commands and replies.
 */
module Resp {
  import opened Wrappers
  import opened Bytes
  import opened ByteReader
  import opened Decimal

  const CR: Byte := 13
  const CRLF: seq<Byte> := [CR, LF]
  const STAR: Byte := '*' as int
  const DOLLAR: Byte := '$' as int
  const PLUS: Byte := '+' as int
  const COLON: Byte := ':' as int

  /** The most bytes that one allocation may ask for; beyond it make panics, as below zero. */
  const MAX_ALLOC: int := 0x1_0000_0000_0000
  const MAX_INT: int := 0x7FFF_FFFF_FFFF_FFFF

  /** strings.TrimRight of line ends. */
  function TrimRight(s: seq<Byte>): seq<Byte> {
    if s != [] && s[|s| - 1] in {CR, LF} then TrimRight(s[..|s| - 1]) else s
  }

  /** One line without its end. */
  function ReadLine(s: seq<Byte>): (r: Got<seq<Byte>>)
    ensures r.Got? ==> |r.rest| < |s|
    ensures !r.Panic? && (r.Err? ==> r.rest == [])
  {
    var n := Newline(s);
    if n == |s| then Err([]) else Got(TrimRight(s[..n + 1]), s[n + 1..])
  }

  /** strconv.Atoi: an optional sign, then digits only, within 64 bits. */
  function Atoi(s: seq<Byte>): Option<int> {
    var ds := if s != [] && (s[0] == MINUS || s[0] == PLUS) then s[1..] else s;
    if ds == [] || !AllDigits(ds) then None
    else
      var v := if s[0] == MINUS then -Undigits(ds) else Undigits(ds);
      if -MAX_INT - 1 <= v <= MAX_INT then Some(v) else None
  }

  /** args of an inline command are those after the name, args of an array are all elements. */
  datatype Command = Command(name: seq<Byte>, args: seq<seq<Byte>>, argCount: nat)

  /** The two library functions that an inline command goes through. */
  datatype Library = Library(upper: seq<Byte> -> seq<Byte>, fields: seq<Byte> -> seq<seq<Byte>>)

  function ReadCommand(s: seq<Byte>, lib: Library): (r: Got<Command>)
    ensures r.Got? ==> |r.rest| < |s|
  {
    match ReadLine(s)
    case Panic => Panic
    case Err(rest) => Err(rest)
    case Got(line, rest) =>
      if line == [] then Err(rest)
      else if line[0] != STAR then
        var parts := lib.fields(line);
        if parts == [] then Got(Command([], [], 0), rest)
        else Got(Command(lib.upper(parts[0]), parts[1..], |parts|), rest)
      else
        match Atoi(line[1..])
        case None => Err(rest)
        case Some(count) =>
          if count < 0 || 16 * count > MAX_ALLOC then Panic
          else
            match ReadArgs(rest, count)
            case Panic => Panic
            case Err(rest') => Err(rest')
            case Got(args, rest') =>
              Got(Command(if args == [] then [] else lib.upper(args[0]), args, |args|), rest')
  }

  /** The length that a bulk string header announces; none for any other line. */
  function BulkLength(line: seq<Byte>): Option<int> {
    if line == [] || line[0] != DOLLAR then None else Atoi(line[1..])
  }

  /** count lines; those that announce no bulk string add no argument. */
  function ReadArgs(s: seq<Byte>, count: nat): (r: Got<seq<seq<Byte>>>)
    ensures r.Got? ==> |r.rest| <= |s|
    decreases count
  {
    if count == 0 then Got([], s)
    else
      match ReadLine(s)
      case Panic => Panic
      case Err(rest) => Err(rest)
      case Got(line, rest) =>
        match BulkLength(line)
        case None => ReadArgs(rest, count - 1)
        case Some(n) =>
          if n < 0 then FirstArg([], ReadArgs(rest, count - 1))
          else if n + 2 > MAX_ALLOC then Panic
          else if n + 2 > |rest| then Err([])
          else FirstArg(rest[..n], ReadArgs(rest[n + 2..], count - 1))
  }

  function FirstArg(arg: seq<Byte>, r: Got<seq<seq<Byte>>>): Got<seq<seq<Byte>>> {
    match r
    case Got(args, rest) => Got([arg] + args, rest)
    case Err(rest) => Err(rest)
    case Panic => Panic
  }

  datatype Response = Response(typ: Byte, value: seq<Byte>, isError: bool)

  function ReadReply(s: seq<Byte>): (r: Got<Response>)
    ensures r.Got? ==> |r.rest| < |s|
    ensures r.Err? ==> |r.rest| < |s| || s == [] == r.rest
    decreases |s|, 0
  {
    match ReadLine(s)
    case Panic => Panic
    case Err(rest) => Err(rest)
    case Got(line, rest) =>
      if line == [] then Err(rest)
      else
        var typ, text := line[0], line[1..];
        if typ == PLUS || typ == COLON then Got(Response(typ, text, false), rest)
        else if typ == MINUS then Got(Response(typ, text, true), rest)
        else if typ == DOLLAR then
          match Atoi(text)
          case None => Got(Response(typ, [], false), rest)
          case Some(n) =>
            if n < 0 then Got(Response(typ, Ascii("(nil)"), false), rest)
            else if n + 2 > MAX_ALLOC then Panic
            else if n + 2 > |rest| then Err([])
            else Got(Response(typ, rest[..n], false), rest[n + 2..])
        else if typ == STAR then
          match Atoi(text)
          case None => Got(Response(typ, [], false), rest)
          case Some(count) =>
            if count < 0 then Got(Response(typ, Ascii("(nil array)"), false), rest)
            else if 16 * count > MAX_ALLOC then Panic
            else
              match ReadReplies(rest, count)
              case Got(parts, rest') => Got(Response(typ, ShowArray(count, parts), false), rest')
              case Err(rest') => Err(rest')
              case Panic => Panic
        else Got(Response(typ, [], false), rest)
  }

  /** Up to count replies; an error ends the array early without being reported. */
  function ReadReplies(s: seq<Byte>, count: nat): (r: Got<seq<seq<Byte>>>)
    ensures !r.Err? && (r.Got? ==> |r.rest| <= |s|)
    decreases |s|, 1
  {
    if count == 0 then Got([], s)
    else
      match ReadReply(s)
      case Panic => Panic
      case Err(rest) => Got([], rest)
      case Got(sub, rest) => FirstArg(sub.value, ReadReplies(rest, count - 1))
  }

  function Join(parts: seq<seq<Byte>>): seq<Byte> {
    if parts == [] then []
    else if |parts| == 1 then parts[0]
    else parts[0] + Ascii(", ") + Join(parts[1..])
  }

  function ShowArray(count: nat, parts: seq<seq<Byte>>): seq<Byte> {
    if |parts| > 4 then Ascii("[") + Digits(count) + Ascii(" elements: ") + Join(parts[..3]) + Ascii(", ...]")
    else Ascii("[") + Join(parts) + Ascii("]")
  }

  // The wire form.

  function Header(mark: Byte, n: int): seq<Byte> {
    [mark] + FormatInt(n)
  }

  function EncodeBulk(b: seq<Byte>): seq<Byte> {
    Header(DOLLAR, |b|) + (CRLF + (b + CRLF))
  }

  function EncodeBulks(bs: seq<seq<Byte>>): seq<Byte> {
    if bs == [] then [] else EncodeBulk(bs[0]) + EncodeBulks(bs[1..])
  }

  /** A command: an array of bulk strings of any bytes. */
  function EncodeCommand(args: seq<seq<Byte>>): seq<Byte> {
    Header(STAR, |args|) + (CRLF + EncodeBulks(args))
  }

  ghost predicate Fits(args: seq<seq<Byte>>) {
    16 * |args| <= MAX_ALLOC && forall i :: 0 <= i < |args| ==> |args[i]| + 2 <= MAX_ALLOC
  }

  datatype RespValue =
    | Simple(text: seq<Byte>)
    | Error(text: seq<Byte>)
    | Integer(i: int)
    | Bulk(b: seq<Byte>)
    | NullBulk
    | Array(items: seq<RespValue>)
    | NullArray

  /** No line feed within and no carriage return at the end. */
  ghost predicate OneLine(t: seq<Byte>) {
    LF !in t && (t != [] ==> t[|t| - 1] != CR)
  }

  ghost predicate WellFormed(v: RespValue) {
    match v
    case Simple(t) => OneLine(t)
    case Error(t) => OneLine(t)
    case Integer(i) => true
    case Bulk(b) => |b| + 2 <= MAX_ALLOC
    case NullBulk => true
    case Array(items) => 16 * |items| <= MAX_ALLOC && forall i :: 0 <= i < |items| ==> WellFormed(items[i])
    case NullArray => true
  }

  function Encode(v: RespValue): seq<Byte>
    decreases v, 0
  {
    match v
    case Simple(t) => [PLUS] + t + CRLF
    case Error(t) => [MINUS] + t + CRLF
    case Integer(i) => Header(COLON, i) + CRLF
    case Bulk(b) => EncodeBulk(b)
    case NullBulk => Header(DOLLAR, -1) + CRLF
    case Array(items) => Header(STAR, |items|) + (CRLF + EncodeItems(items))
    case NullArray => Header(STAR, -1) + CRLF
  }

  function EncodeItems(items: seq<RespValue>): seq<Byte>
    decreases items, 1
  {
    if items == [] then [] else Encode(items[0]) + EncodeItems(items[1..])
  }

  /** What a reply is shown as; an array of more than four elements shows three. */
  function Shown(v: RespValue): Response
    decreases v, 0
  {
    match v
    case Simple(t) => Response(PLUS, t, false)
    case Error(t) => Response(MINUS, t, true)
    case Integer(i) => Response(COLON, FormatInt(i), false)
    case Bulk(b) => Response(DOLLAR, b, false)
    case NullBulk => Response(DOLLAR, Ascii("(nil)"), false)
    case Array(items) => Response(STAR, ShowArray(|items|, ShownItems(items)), false)
    case NullArray => Response(STAR, Ascii("(nil array)"), false)
  }

  function ShownItems(items: seq<RespValue>): (parts: seq<seq<Byte>>)
    ensures |parts| == |items|
    decreases items, 1
  {
    if items == [] then [] else [Shown(items[0]).value] + ShownItems(items[1..])
  }
}
