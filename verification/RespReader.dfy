/** The RESP readers over a buffered reader that they consume (redisport/resp_protocol.go). */
module RespReader {
  import opened Bytes
  import opened ByteReader
  import opened Decimal
  import opened Seqs
  import opened Resp

  method ReadTrimmed(r: Reader) returns (e: Status, line: seq<Byte>)
    modifies r
    ensures r.Shows(e, line, ReadLine(old(r.rest)))
  {
    var ok, text := r.ReadString();
    if !ok {
      return Failed, [];
    }
    return Ok, TrimRight(text);
  }

  method ReadRESPCommand(r: Reader, lib: Library) returns (e: Status, cmd: Command)
    modifies r
    ensures r.Shows(e, cmd, ReadCommand(old(r.rest), lib))
  {
    hide ReadLine, Atoi, ReadArgs;
    cmd := Command([], [], 0);
    var line: seq<Byte>;
    e, line := ReadTrimmed(r);
    if e != Ok {
      return;
    }
    if |line| == 0 {
      return Failed, cmd;
    }
    if line[0] != STAR {
      var parts := lib.fields(line);
      if |parts| > 0 {
        cmd := Command(lib.upper(parts[0]), parts[1..], |parts|);
      }
      return;
    }
    var count := Atoi(line[1..]);
    if count.None? {
      return Failed, cmd;
    }
    if count.value < 0 || 16 * count.value > MAX_ALLOC {
      return Crashed, cmd;
    }
    var args: seq<seq<Byte>>;
    e, args := ReadElements(r, count.value);
    if e != Ok {
      return;
    }
    var name: seq<Byte> := [];
    if |args| > 0 {
      name := lib.upper(args[0]);
    }
    cmd := Command(name, args, |args|);
  }

  /** What a loop has gathered in front of what the rest of it gives. */
  ghost function After(args: seq<seq<Byte>>, r: Got<seq<seq<Byte>>>): Got<seq<seq<Byte>>> {
    match r
    case Got(more, rest) => Got(args + more, rest)
    case Err(rest) => Err(rest)
    case Panic => Panic
  }

  lemma AfterNone(args: seq<seq<Byte>>, r: Got<seq<seq<Byte>>>)
    requires |args| == 0
    ensures After(args, r) == r
  {
    if r.Got? {
      EmptyLeft(args, r.value);
    }
  }

  lemma AfterOne(args: seq<seq<Byte>>, arg: seq<Byte>, r: Got<seq<seq<Byte>>>)
    ensures After(args, FirstArg(arg, r)) == After(args + [arg], r)
  {
    if r.Got? {
      Assoc(args, [arg], r.value);
    }
  }

  lemma AfterAll(args: seq<seq<Byte>>, rest: seq<Byte>)
    ensures After(args, Got([], rest)) == Got(args, rest)
  {
    EmptyRight<seq<Byte>>(args, []);
  }

  /** The loop over the elements of a command. */
  method ReadElements(r: Reader, count: nat) returns (e: Status, args: seq<seq<Byte>>)
    modifies r
    ensures r.Shows(e, args, ReadArgs(old(r.rest), count))
  {
    hide ReadLine, Atoi, FirstArg, After;
    args := [];
    e := Ok;
    AfterNone(args, ReadArgs(r.rest, count));
    var i := 0;
    while i < count
      invariant 0 <= i <= count && e == Ok
      invariant ReadArgs(old(r.rest), count) == After(args, ReadArgs(r.rest, count - i))
    {
      ghost var left := ReadArgs(r.rest, count - i);
      AfterFails(args, left);
      var bl: seq<Byte>;
      e, bl := ReadTrimmed(r);
      if e != Ok {
        return;
      }
      i := i + 1;
      if |bl| == 0 || bl[0] != DOLLAR {
        continue;
      }
      var blen := Atoi(bl[1..]);
      if blen.None? {
        continue;
      }
      if blen.value < 0 {
        AfterOne(args, [], ReadArgs(r.rest, count - i));
        args := args + [[]];
        continue;
      }
      if blen.value + 2 > MAX_ALLOC {
        return Crashed, args;
      }
      ghost var before := r.rest;
      var ok, buf := r.ReadFull(blen.value + 2);
      if !ok {
        return Failed, args;
      }
      var val := buf[..blen.value];
      assert val == before[..blen.value];
      AfterOne(args, val, ReadArgs(r.rest, count - i));
      args := args + [val];
    }
    AfterAll(args, r.rest);
  }

  lemma AfterFails(args: seq<seq<Byte>>, r: Got<seq<seq<Byte>>>)
    ensures !r.Got? ==> After(args, r) == r
  {
  }

  method ReadRESPResponse(r: Reader) returns (e: Status, resp: Response)
    modifies r
    ensures r.Shows(e, resp, ReadReply(old(r.rest)))
    decreases |r.rest|, 0
  {
    hide ReadLine, Atoi, ReadReplies, Ascii, ShowArray;
    resp := Response(0, [], false);
    var line: seq<Byte>;
    ghost var start := r.rest;
    e, line := ReadTrimmed(r);
    if e != Ok {
      return;
    }
    if |line| == 0 {
      return Failed, resp;
    }
    var typ := line[0];
    resp := Response(typ, [], false);
    if typ == PLUS || typ == COLON {
      resp := resp.(value := line[1..]);
    } else if typ == MINUS {
      resp := resp.(value := line[1..], isError := true);
    } else if typ == DOLLAR {
      var blen := Atoi(line[1..]);
      if blen.None? {
        return;
      }
      if blen.value < 0 {
        resp := resp.(value := Ascii("(nil)"));
        return;
      }
      if blen.value + 2 > MAX_ALLOC {
        return Crashed, resp;
      }
      ghost var before := r.rest;
      var ok, buf := r.ReadFull(blen.value + 2);
      if !ok {
        return Failed, resp;
      }
      assert buf[..blen.value] == before[..blen.value];
      resp := resp.(value := buf[..blen.value]);
    } else if typ == STAR {
      var count := Atoi(line[1..]);
      if count.None? {
        return;
      }
      if count.value < 0 {
        resp := resp.(value := Ascii("(nil array)"));
        return;
      }
      if 16 * count.value > MAX_ALLOC {
        return Crashed, resp;
      }
      var parts: seq<seq<Byte>>;
      e, parts := ReadElementReplies(r, count.value);
      if e == Ok {
        resp := resp.(value := ShowArray(count.value, parts));
      }
    }
  }

  /** The loop over the elements of an array reply; an error only ends it. */
  method ReadElementReplies(r: Reader, count: nat) returns (e: Status, parts: seq<seq<Byte>>)
    modifies r
    ensures r.Shows(e, parts, ReadReplies(old(r.rest), count))
    decreases |r.rest|, 1
  {
    hide ReadReply, FirstArg, After;
    parts := [];
    AfterNone(parts, ReadReplies(r.rest, count));
    var i := 0;
    while i < count
      invariant 0 <= i <= count && |r.rest| <= |old(r.rest)|
      invariant ReadReplies(old(r.rest), count) == After(parts, ReadReplies(r.rest, count - i))
    {
      AfterFails(parts, ReadReplies(r.rest, count - i));
      var sub: Response;
      e, sub := ReadRESPResponse(r);
      if e == Crashed {
        return;
      }
      if e == Failed {
        break;
      }
      AfterOne(parts, sub.value, ReadReplies(r.rest, count - i - 1));
      parts := parts + [sub.value];
      i := i + 1;
    }
    AfterAll(parts, r.rest);
    e := Ok;
  }
}
