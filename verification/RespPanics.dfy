/** Exactly which bytes make the RESP readers panic (redisport/resp_protocol.go). */
module RespPanics {
  import opened Wrappers
  import opened Bytes
  import opened ByteReader
  import opened Seqs
  import opened Resp
  import opened RespTheorems

  /** A bulk string header that announces more than can be allocated. */
  predicate BulkTooLong(line: seq<Byte>) {
    var n := BulkLength(line);
    n.Some? && n.value + 2 > MAX_ALLOC
  }

  /** The count that an array header announces. */
  function ArrayCount(line: seq<Byte>): Option<int> {
    if line == [] || line[0] != STAR then None else Atoi(line[1..])
  }

  /** What is left behind one element of a command; nothing if it is cut short. */
  function AfterElement(line: seq<Byte>, rest: seq<Byte>): (r: Option<seq<Byte>>)
    ensures r.Some? ==> |r.value| <= |rest|
  {
    var n := BulkLength(line);
    if n.None? || n.value < 0 then Some(rest)
    else if n.value + 2 > |rest| then None
    else Some(rest[n.value + 2..])
  }

  /** One of the next count element headers, before the bytes run out, announces too much. */
  predicate BulkTooLongAmong(s: seq<Byte>, count: nat)
    decreases count
  {
    count > 0
    && LF in s
    && var line, rest := Line(s), s[Newline(s) + 1..];
    || BulkTooLong(line)
    || (AfterElement(line, rest).Some? && BulkTooLongAmong(AfterElement(line, rest).value, count - 1))
  }

  /** The first line without its end. */
  function Line(s: seq<Byte>): seq<Byte>
    requires LF in s
  {
    TrimRight(s[..Newline(s) + 1])
  }

  lemma LineIs(s: seq<Byte>)
    ensures LF in s <==> Newline(s) < |s|
    ensures LF in s ==> ReadLine(s) == Got(Line(s), s[Newline(s) + 1..])
    ensures LF !in s ==> ReadLine(s) == Err([])
  {
    hide TrimRight;
    if Newline(s) == |s| {
      assert s[..Newline(s)] == s;
    }
  }

  lemma ArgsUnfold(s: seq<Byte>, count: nat)
    requires count > 0
    ensures LF !in s ==> ReadArgs(s, count) == Err([])
    ensures LF in s ==>
              var line, rest := Line(s), s[Newline(s) + 1..];
              if BulkTooLong(line) then ReadArgs(s, count) == Panic
              else if AfterElement(line, rest).None? then ReadArgs(s, count) == Err([])
              else
                var r := ReadArgs(AfterElement(line, rest).value, count - 1);
                ReadArgs(s, count).Panic? <==> r.Panic?
  {
    hide ReadLine, Line, Newline, BulkLength;
    LineIs(s);
  }

  lemma {:induction false} ArgsPanicExactly(s: seq<Byte>, count: nat)
    ensures ReadArgs(s, count).Panic? <==> BulkTooLongAmong(s, count)
    decreases count
  {
    hide ReadArgs, Line, Newline, BulkTooLong, AfterElement;
    if count == 0 {
      NoArgsNoPanic(s);
    } else {
      ArgsUnfold(s, count);
      LineIs(s);
      if LF in s {
        var line, rest := Line(s), s[Newline(s) + 1..];
        if AfterElement(line, rest).Some? {
          ArgsPanicExactly(AfterElement(line, rest).value, count - 1);
        }
      }
    }
  }

  lemma NoArgsNoPanic(s: seq<Byte>)
    ensures ReadArgs(s, 0) == Got([], s)
  {
  }

  /**
   Reading a command panics if and only if the first line announces an array with a negative count
   or one too large to allocate, or one of its bulk strings is too large.
   */
  lemma CommandPanicsExactly(s: seq<Byte>, lib: Library)
    ensures ReadCommand(s, lib).Panic? <==>
            && LF in s && ArrayCount(Line(s)).Some?
            && var n := ArrayCount(Line(s)).value;
            || n < 0 || 16 * n > MAX_ALLOC || BulkTooLongAmong(s[Newline(s) + 1..], n)
  {
    hide ReadLine, ReadArgs, Line, Newline, Atoi, BulkTooLongAmong;
    LineIs(s);
    if LF in s && ArrayCount(Line(s)).Some? && ArrayCount(Line(s)).value >= 0 {
      ArgsPanicExactly(s[Newline(s) + 1..], ArrayCount(Line(s)).value);
    }
  }

  /** For example a null array, sent as a command, panics. */
  lemma NullArrayPanics(lib: Library, tail: seq<Byte>)
    ensures ReadCommand(Header(STAR, -1) + (CRLF + tail), lib).Panic?
  {
    hide ReadLine, Atoi, Header, ReadArgs;
    HeaderLine(STAR, -1, tail);
  }

  // Replies.

  /** A header that announces more than can be allocated, as elements or as bytes. */
  predicate TooMuch(line: seq<Byte>) {
    BulkTooLong(line) || (ArrayCount(line).Some? && 16 * ArrayCount(line).value > MAX_ALLOC)
  }

  /**
   A single pass over the headers of replies: stack holds how many replies each open array still
   waits for, the innermost last. An empty line ends the innermost array; running out of bytes
   ends them all.
   */
  predicate ReachesTooMuch(s: seq<Byte>, stack: seq<nat>)
    decreases |s|, |stack|
  {
    stack != []
    && var top, outer := stack[|stack| - 1], stack[..|stack| - 1];
    if top == 0 then ReachesTooMuch(s, outer)
    else
      LF in s
      && var line, rest := Line(s), s[Newline(s) + 1..];
      if line == [] then ReachesTooMuch(rest, outer)
      else if TooMuch(line) then true
      else if ArrayCount(line).Some? && ArrayCount(line).value >= 0 then
        ReachesTooMuch(rest, outer + [top - 1] + [ArrayCount(line).value])
      else
        AfterElement(line, rest).Some? && ReachesTooMuch(AfterElement(line, rest).value, outer + [top - 1])
  }

  lemma ReplyUnfold(s: seq<Byte>)
    ensures LF !in s ==> ReadReply(s) == Err([])
    ensures LF in s ==>
              var line, rest := Line(s), s[Newline(s) + 1..];
              if line == [] then ReadReply(s) == Err(rest)
              else if TooMuch(line) then ReadReply(s) == Panic
              else if ArrayCount(line).Some? && ArrayCount(line).value >= 0 then
                var r := ReadReplies(rest, ArrayCount(line).value);
                && (ReadReply(s).Panic? <==> r.Panic?)
                && (r.Got? ==> ReadReply(s).Got? && ReadReply(s).rest == r.rest)
              else if AfterElement(line, rest).None? then ReadReply(s) == Err([])
              else ReadReply(s).Got? && ReadReply(s).rest == AfterElement(line, rest).value
  {
    hide ReadLine, ReadReplies, Line, Newline, Atoi, ShowArray, Ascii;
    LineIs(s);
  }

  lemma RepliesUnfold(s: seq<Byte>, count: nat)
    ensures count == 0 ==> ReadReplies(s, count) == Got([], s)
    ensures count > 0 ==>
              var one, all := ReadReply(s), ReadReplies(s, count);
              && (one.Panic? ==> all.Panic?)
              && (one.Err? ==> all == Got([], one.rest))
              && (one.Got? ==>
                    var r := ReadReplies(one.rest, count - 1);
                    && (all.Panic? <==> r.Panic?)
                    && (r.Got? ==> all.Got? && all.rest == r.rest))
  {
    hide ReadReply;
  }

  lemma StackTop(outer: seq<nat>, top: nat)
    ensures var stack := outer + [top];
            stack != [] && stack[|stack| - 1] == top && stack[..|stack| - 1] == outer
  {
  }

  lemma ReachUnfold(s: seq<Byte>, outer: seq<nat>, top: nat)
    ensures top == 0 ==> ReachesTooMuch(s, outer + [top]) == ReachesTooMuch(s, outer)
    ensures top > 0 && LF !in s ==> !ReachesTooMuch(s, outer + [top])
    ensures top > 0 && LF in s ==>
              var line, rest := Line(s), s[Newline(s) + 1..];
              ReachesTooMuch(s, outer + [top]) ==
                if line == [] then ReachesTooMuch(rest, outer)
                else if TooMuch(line) then true
                else if ArrayCount(line).Some? && ArrayCount(line).value >= 0 then
                  ReachesTooMuch(rest, outer + [top - 1] + [ArrayCount(line).value])
                else
                  AfterElement(line, rest).Some? && ReachesTooMuch(AfterElement(line, rest).value, outer + [top - 1])
  {
    hide Line, Newline, TooMuch, AfterElement, ArrayCount;
    StackTop(outer, top);
    LineIs(s);
  }

  lemma {:induction false} EndReaches(s: seq<Byte>, stack: seq<nat>)
    requires s == []
    ensures !ReachesTooMuch(s, stack)
    decreases |stack|
  {
    if stack != [] && stack[|stack| - 1] == 0 {
      EndReaches(s, stack[..|stack| - 1]);
    }
  }

  /** The pass over the replies of one open array, and over what the arrays around it still wait for. */
  lemma {:induction false} RepliesReach(s: seq<Byte>, outer: seq<nat>, count: nat)
    ensures ReachesTooMuch(s, outer + [count]) <==>
            || ReadReplies(s, count).Panic?
            || (ReadReplies(s, count).Got? && ReachesTooMuch(ReadReplies(s, count).rest, outer))
    decreases |s|, count
  {
    hide *;
    RepliesUnfold(s, count);
    ReachUnfold(s, outer, count);
    if count > 0 {
      ReplyUnfold(s);
      LineIs(s);
      if LF !in s {
        EndReaches([], outer);
      } else {
        LineShorter(s);
        var line, rest := Line(s), s[Newline(s) + 1..];
        if line != [] && !TooMuch(line) {
          if ArrayCount(line).Some? && ArrayCount(line).value >= 0 {
            var n := ArrayCount(line).value;
            RepliesReach(rest, outer + [count - 1], n);
            RepliesShorter(rest, n);
            if ReadReplies(rest, n).Got? {
              RepliesReach(ReadReplies(rest, n).rest, outer, count - 1);
            }
          } else if AfterElement(line, rest).Some? {
            ElementShorter(line, rest);
            RepliesReach(AfterElement(line, rest).value, outer, count - 1);
          } else {
            EndReaches([], outer);
          }
        }
      }
    }
  }

  lemma LineShorter(s: seq<Byte>)
    requires LF in s
    ensures Newline(s) < |s| && |s[Newline(s) + 1..]| < |s|
  {
    LineIs(s);
  }

  lemma RepliesShorter(s: seq<Byte>, n: nat)
    ensures !ReadReplies(s, n).Err?
    ensures ReadReplies(s, n).Got? ==> |ReadReplies(s, n).rest| <= |s|
  {
    hide ReadReplies;
  }

  lemma ElementShorter(line: seq<Byte>, rest: seq<Byte>)
    requires AfterElement(line, rest).Some?
    ensures |AfterElement(line, rest).value| <= |rest|
  {
  }

  /** Reading a reply panics if and only if the pass over its headers reaches one that announces too much. */
  lemma ReplyPanicsExactly(s: seq<Byte>)
    ensures ReadReply(s).Panic? <==> ReachesTooMuch(s, [1])
  {
    hide ReadReply, ReadReplies, ReachesTooMuch;
    RepliesReach(s, [], 1);
    EmptyLeft<nat>([], [1]);
    RepliesUnfold(s, 1);
    NothingOpen(s);
    if ReadReply(s).Got? {
      RepliesUnfold(ReadReply(s).rest, 0);
    }
  }

  lemma NothingOpen(s: seq<Byte>)
    ensures forall rest :: !ReachesTooMuch(rest, [])
  {
  }

  /** For example one byte more than can be allocated with the two of the line end. */
  lemma HugeBulkPanics(tail: seq<Byte>)
    ensures ReadReply(Header(DOLLAR, MAX_ALLOC - 1) + (CRLF + tail)).Panic?
  {
    hide ReadLine, Atoi, Header, ReadReplies;
    HeaderLine(DOLLAR, MAX_ALLOC - 1, tail);
  }
}
