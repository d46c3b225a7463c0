/** The handler that reads commands and replies in lock-step (main.go). */
module RedisHandler {
  import opened Bytes
  import opened ByteReader
  import opened Seqs
  import opened Resp
  import opened RespTheorems
  import opened RespReader

  /** What is written to the buffer; the formatters are not modelled. */
  datatype Line = Asked(cmd: Command) | Answered(resp: Response)

  /** The command, key and cost filters are arbitrary; the cost is that of the k-th exchange. */
  datatype Filter = Filter(urlOnly: bool, commandPasses: seq<Byte> -> bool, keyPasses: seq<Byte> -> bool,
                           inCost: nat -> bool)
  {
    predicate Passes(cmd: Command) {
      commandPasses(cmd.name) && keyPasses(if |cmd.args| > 1 then cmd.args[1] else [])
    }
  }

  /** Of a command sent as an array the key filter sees the element after the name, or nothing. */
  lemma KeyOfArray(args: seq<seq<Byte>>, lib: Library, f: Filter, tail: seq<Byte>)
    requires Fits(args) && args != []
    ensures var r := ReadCommand(EncodeCommand(args) + tail, lib);
            && r.Got?
            && (f.Passes(r.value) <==>
                f.commandPasses(lib.upper(args[0])) && f.keyPasses(if |args| == 1 then [] else args[1]))
  {
    hide ReadCommand, EncodeCommand;
    CommandReads(args, lib, tail);
  }

  /** Of an inline command it sees the second word after the name, and nothing where there is only one. */
  lemma KeyOfInline(line: seq<Byte>, words: seq<seq<Byte>>, lib: Library, f: Filter, tail: seq<Byte>)
    requires OneLine(line) && line != [] && line[0] != STAR && lib.fields(line) == words && words != []
    ensures var r := ReadCommand(line + (CRLF + tail), lib);
            && r.Got?
            && (f.Passes(r.value) <==>
                f.commandPasses(lib.upper(words[0])) && f.keyPasses(if |words| <= 2 then [] else words[2]))
  {
    hide ReadCommand;
    InlineReads(line, words, lib, tail);
  }

  /** The buffers sent to the printer, and whether the run ended in a panic. */
  datatype Output = Output(sent: seq<seq<Line>>, crashed: bool)

  function Before(first: seq<seq<Line>>, out: Output): Output {
    Output(first + out.sent, out.crashed)
  }

  /** What one answered exchange sends. */
  function Exchange(cmd: Command, resp: Response, f: Filter, k: nat): seq<seq<Line>> {
    if !f.Passes(cmd) || !f.inCost(k) then []
    else if f.urlOnly then [[Asked(cmd)]]
    else [[Asked(cmd), Answered(resp)]]
  }

  /**
   Every answered exchange is sent at most once: not at all if a filter or the cost refuses it,
   otherwise the command, and the reply after it unless only commands are asked for.
   */
  lemma ExchangeMeaning(cmd: Command, resp: Response, f: Filter, k: nat)
    ensures var sent := Exchange(cmd, resp, f, k);
            && (sent != [] <==> f.commandPasses(cmd.name) && f.Passes(cmd) && f.inCost(k))
            && (sent != [] ==> |sent| == 1 && sent[0] != [] && sent[0][0] == Asked(cmd))
            && (sent != [] && f.urlOnly ==> |sent[0]| == 1)
            && (sent != [] && !f.urlOnly ==> sent[0][1..] == [Answered(resp)])
  {
  }

  /** A filtered command reads its reply all the same; without a reply the command is sent twice. */
  function HandleAll(reqs: seq<Byte>, resps: seq<Byte>, lib: Library, f: Filter, k: nat): Output
    decreases |reqs|
  {
    match ReadCommand(reqs, lib)
    case Panic => Output([], true)
    case Err(_) => Output([], false)
    case Got(cmd, reqs') =>
      match ReadReply(resps)
      case Panic => Output([], true)
      case Err(resps') =>
        if f.Passes(cmd) then Output([[Asked(cmd)], [Asked(cmd)]], false)
        else HandleAll(reqs', resps', lib, f, k + 1)
      case Got(resp, resps') =>
        Before(Exchange(cmd, resp, f, k), HandleAll(reqs', resps', lib, f, k + 1))
  }

  class RedisTrafficHandler {
    const lib: Library
    const filter: Filter
    var buf: seq<Line>
    var sent: seq<seq<Line>>

    constructor (lib: Library, filter: Filter)
      ensures this.lib == lib && this.filter == filter && sent == [] && buf == []
    {
      this.lib, this.filter := lib, filter;
      buf, sent := [], [];
    }

    method Send()
      modifies `sent
      ensures sent == old(sent) + [buf]
    {
      sent := sent + [buf];
    }

    /** Sends what the specification says, behind what was sent before; k stands in for the clock. */
    method Handle(reqR: Reader, respR: Reader) returns (crashed: bool)
      requires reqR != respR
      modifies this, reqR, respR
      ensures var out := HandleAll(old(reqR.rest), old(respR.rest), lib, filter, 0);
              sent == old(sent) + out.sent && crashed == out.crashed
    {
      hide ReadCommand, ReadReply, Ahead, Before, HandleAll;
      crashed := false;
      var k := 0;
      ghost var all := HandleAll(reqR.rest, respR.rest, lib, filter, 0);
      NothingSent(sent, all);
      while true
        invariant Ahead(old(sent), sent, all, HandleAll(reqR.rest, respR.rest, lib, filter, k))
        decreases |reqR.rest|
      {
        ghost var last := HandleAll(reqR.rest, respR.rest, lib, filter, k);
        LastSent(old(sent), sent, all, last);
        HandleUnfold(reqR.rest, respR.rest, lib, filter, k);
        buf := [];
        var e, cmd := ReadRESPCommand(reqR, lib);
        if e == Crashed {
          return true;
        }
        if e == Failed {
          break;
        }
        var resp: Response;
        if !filter.commandPasses(cmd.name) {
          e, resp := ReadRESPResponse(respR);
          if e == Crashed {
            return true;
          }
          SkipStep(old(sent), sent, all, last, HandleAll(reqR.rest, respR.rest, lib, filter, k + 1));
          k := k + 1;
          continue;
        }
        var key: seq<Byte> := [];
        if |cmd.args| > 1 {
          key := cmd.args[1];
        }
        if !filter.keyPasses(key) {
          e, resp := ReadRESPResponse(respR);
          if e == Crashed {
            return true;
          }
          SkipStep(old(sent), sent, all, last, HandleAll(reqR.rest, respR.rest, lib, filter, k + 1));
          k := k + 1;
          continue;
        }
        buf := buf + [Asked(cmd)];
        assert buf == [Asked(cmd)];
        e, resp := ReadRESPResponse(respR);
        if e == Crashed {
          return true;
        }
        if e == Failed {
          Send();
          break;
        }
        if !filter.inCost(k) {
          SkipStep(old(sent), sent, all, last, HandleAll(reqR.rest, respR.rest, lib, filter, k + 1));
          k := k + 1;
          continue;
        }
        if !filter.urlOnly {
          buf := buf + [Answered(resp)];
          assert buf == [Asked(cmd), Answered(resp)];
        }
        ghost var before := sent;
        Send();
        SentStep(old(sent), before, all, last, buf, HandleAll(reqR.rest, respR.rest, lib, filter, k + 1));
        k := k + 1;
      }
      if |buf| > 0 {
        Send();
      }
    }
  }

  lemma HandleUnfold(reqs: seq<Byte>, resps: seq<Byte>, lib: Library, f: Filter, k: nat)
    ensures var c, r, out := ReadCommand(reqs, lib), ReadReply(resps), HandleAll(reqs, resps, lib, f, k);
            && (c.Panic? ==> out == Output([], true))
            && (c.Err? ==> out == Output([], false))
            && (c.Got? && r.Panic? ==> out == Output([], true))
            && (c.Got? && r.Err? ==>
                  out == if f.Passes(c.value) then Output([[Asked(c.value)], [Asked(c.value)]], false)
                         else HandleAll(c.rest, r.rest, lib, f, k + 1))
            && (c.Got? && r.Got? ==>
                  out == Before(Exchange(c.value, r.value, f, k), HandleAll(c.rest, r.rest, lib, f, k + 1)))
  {
    hide ReadCommand, ReadReply, Exchange, Filter.Passes;
  }

  // The loop's bookkeeping: what has been sent so far, and what the rest of the run sends.

  ghost predicate Ahead(start: seq<seq<Line>>, sent: seq<seq<Line>>, all: Output, rest: Output) {
    start + all.sent == sent + rest.sent && all.crashed == rest.crashed
  }

  lemma NothingSent(sent: seq<seq<Line>>, all: Output)
    ensures Ahead(sent, sent, all, all)
  {
  }

  lemma LastSent(start: seq<seq<Line>>, sent: seq<seq<Line>>, all: Output, rest: Output)
    requires Ahead(start, sent, all, rest)
    ensures rest.sent == [] ==> sent == start + all.sent
    ensures rest.crashed == all.crashed
    ensures forall a :: rest.sent == [a, a] ==> (sent + [a]) + [a] == start + all.sent
  {
    forall a | rest.sent == [a, a]
      ensures (sent + [a]) + [a] == start + all.sent
    {
      Assoc(sent, [a], [a]);
    }
  }

  /** A step that sends nothing. */
  lemma SkipStep(start: seq<seq<Line>>, sent: seq<seq<Line>>, all: Output, rest: Output, next: Output)
    requires Ahead(start, sent, all, rest) && (rest == next || rest == Before([], next))
    ensures Ahead(start, sent, all, next)
  {
    EmptyLeft<seq<Line>>([], next.sent);
  }

  lemma SentStep(start: seq<seq<Line>>, sent: seq<seq<Line>>, all: Output, rest: Output, buf: seq<Line>, next: Output)
    requires Ahead(start, sent, all, rest) && rest == Before([buf], next)
    ensures Ahead(start, sent + [buf], all, next)
  {
    Assoc(sent, [buf], next.sent);
  }

  // What the handler sends on any two streams.

  /** One round of the loop: a command, and what came of reading its reply. */
  datatype Turn = Turn(cmd: Command, reply: Got<Response>)

  /** The rounds that the two streams give if no error ends them early; a panic is the last. */
  function Turns(reqs: seq<Byte>, resps: seq<Byte>, lib: Library): seq<Turn>
    decreases |reqs|
  {
    match ReadCommand(reqs, lib)
    case Panic => []
    case Err(_) => []
    case Got(cmd, reqs') =>
      var reply := ReadReply(resps);
      [Turn(cmd, reply)] + if reply.Panic? then [] else Turns(reqs', reply.rest, lib)
  }

  /** A round after which the loop stops: a shown command without a reply, or a panic. */
  predicate Stops(t: Turn, f: Filter) {
    t.reply.Panic? || (t.reply.Err? && f.Passes(t.cmd))
  }

  /** How many rounds come before the one that stops the loop. */
  function RoundsDone(ts: seq<Turn>, f: Filter): (n: nat)
    ensures n <= |ts| && (n < |ts| ==> Stops(ts[n], f))
    ensures forall i :: 0 <= i < n ==> !Stops(ts[i], f)
  {
    if ts == [] || Stops(ts[0], f) then 0 else 1 + RoundsDone(ts[1..], f)
  }

  /** What the k-th round sends when it does not stop the loop. */
  function Shows(t: Turn, f: Filter, k: nat): seq<seq<Line>> {
    if t.reply.Got? then Exchange(t.cmd, t.reply.value, f, k) else []
  }

  /** The entries of several rounds in order, numbered from k on. */
  function Joined(ts: seq<Turn>, f: Filter, k: nat): seq<seq<Line>> {
    if ts == [] then [] else Shows(ts[0], f, k) + Joined(ts[1..], f, k + 1)
  }

  /**
   On any two streams the handler sends the entries of the rounds before the one that stops it, in
   order; and if that one is a shown command without a reply, that command twice.
   */
  lemma {:induction false} HandleMeaning(reqs: seq<Byte>, resps: seq<Byte>, lib: Library, f: Filter, k: nat)
    ensures var ts := Turns(reqs, resps, lib);
            var n := RoundsDone(ts, f);
            HandleAll(reqs, resps, lib, f, k).sent ==
              Joined(ts[..n], f, k)
              + if n < |ts| && ts[n].reply.Err? then [[Asked(ts[n].cmd)], [Asked(ts[n].cmd)]] else []
    decreases |reqs|
  {
    hide ReadCommand, ReadReply, Exchange, Filter.Passes;
    var ts := Turns(reqs, resps, lib);
    var c := ReadCommand(reqs, lib);
    if c.Got? {
      var t := Turn(c.value, ReadReply(resps));
      assert ts[0] == t;
      if !Stops(t, f) {
        var rest := Turns(c.rest, t.reply.rest, lib);
        assert ts[1..] == rest;
        HandleMeaning(c.rest, t.reply.rest, lib, f, k + 1);
        var m := RoundsDone(rest, f);
        assert RoundsDone(ts, f) == m + 1 && ts[..m + 1][0] == t && ts[..m + 1][1..] == rest[..m];
        Assoc(Shows(t, f, k), Joined(rest[..m], f, k + 1),
              if m < |rest| && rest[m].reply.Err? then [[Asked(rest[m].cmd)], [Asked(rest[m].cmd)]] else []);
        EmptyLeft<seq<Line>>([], HandleAll(c.rest, t.reply.rest, lib, f, k + 1).sent);
      }
    }
  }

  // Lock-step pairing.

  function EncodeCommands(cmds: seq<seq<seq<Byte>>>): seq<Byte> {
    if cmds == [] then [] else EncodeCommand(cmds[0]) + EncodeCommands(cmds[1..])
  }

  lemma EmptyReads(lib: Library)
    ensures ReadCommand([], lib) == Err([]) && ReadReply([]) == Err([])
  {
  }

  /** The k-th round of well-formed streams: the k-th command with the k-th reply, or with none. */
  function PairAt(cmds: seq<seq<seq<Byte>>>, replies: seq<RespValue>, lib: Library, i: nat): (t: Turn)
    requires i < |cmds|
    ensures t.reply.Got? <==> i < |replies|
  {
    Turn(Reported(cmds[i], lib),
         if i < |replies| then Got(Shown(replies[i]), EncodeItems(replies[i + 1..])) else Err([]))
  }

  /** On well-formed streams of any lengths the rounds pair by position. */
  lemma {:induction false} TurnsPair(cmds: seq<seq<seq<Byte>>>, replies: seq<RespValue>, lib: Library)
    requires forall i :: 0 <= i < |cmds| ==> Fits(cmds[i])
    requires forall i :: 0 <= i < |replies| ==> WellFormed(replies[i])
    ensures Turns(EncodeCommands(cmds), EncodeItems(replies), lib) == Pairs(cmds, replies, lib)
    ensures !EndsInPanic(EncodeCommands(cmds), EncodeItems(replies), lib)
    decreases |cmds|
  {
    hide *;
    if cmds == [] {
      NoTurns(cmds, replies, lib);
    } else {
      var rest, left := cmds[1..], if replies != [] then replies[1..] else [];
      var reqs, resps := EncodeCommands(cmds), EncodeItems(replies);
      CommandsCons(cmds);
      CommandReads(cmds[0], lib, EncodeCommands(rest));
      FirstReply(replies);
      TurnsPair(rest, left, lib);
      TurnsCons(reqs, resps, lib, Reported(cmds[0], lib), EncodeCommands(rest));
      PairsCons(cmds, replies, lib, rest, left);
    }
  }

  lemma NoTurns(cmds: seq<seq<seq<Byte>>>, replies: seq<RespValue>, lib: Library)
    requires cmds == []
    ensures Turns(EncodeCommands(cmds), EncodeItems(replies), lib) == Pairs(cmds, replies, lib)
    ensures !EndsInPanic(EncodeCommands(cmds), EncodeItems(replies), lib)
  {
    hide EncodeItems;
    EmptyReads(lib);
  }

  lemma CommandsCons(cmds: seq<seq<seq<Byte>>>)
    requires cmds != []
    ensures EncodeCommands(cmds) == EncodeCommand(cmds[0]) + EncodeCommands(cmds[1..])
  {
    hide EncodeCommand;
  }

  lemma FirstReply(replies: seq<RespValue>)
    requires forall i :: 0 <= i < |replies| ==> WellFormed(replies[i])
    ensures ReadReply(EncodeItems(replies)) ==
            if replies != [] then Got(Shown(replies[0]), EncodeItems(replies[1..])) else Err([])
    ensures replies == [] ==> EncodeItems(replies) == []
  {
    hide ReadReply, Encode, WellFormed, Shown;
    if replies != [] {
      ReplyReads(replies[0], EncodeItems(replies[1..]));
    } else {
      EmptyReads(Library(s => s, s => []));
    }
  }

  lemma TurnsCons(reqs: seq<Byte>, resps: seq<Byte>, lib: Library, cmd: Command, rest: seq<Byte>)
    requires ReadCommand(reqs, lib) == Got(cmd, rest) && !ReadReply(resps).Panic?
    ensures Turns(reqs, resps, lib) == [Turn(cmd, ReadReply(resps))] + Turns(rest, ReadReply(resps).rest, lib)
    ensures EndsInPanic(reqs, resps, lib) <==> EndsInPanic(rest, ReadReply(resps).rest, lib)
  {
    hide ReadCommand, ReadReply;
  }

  lemma PairsCons(cmds: seq<seq<seq<Byte>>>, replies: seq<RespValue>, lib: Library, rest: seq<seq<seq<Byte>>>,
                  left: seq<RespValue>)
    requires cmds != [] && rest == cmds[1..] && left == if replies != [] then replies[1..] else []
    ensures var first := if replies != [] then Got(Shown(replies[0]), EncodeItems(left)) else Err([]);
            Pairs(cmds, replies, lib) == [Turn(Reported(cmds[0], lib), first)] + Pairs(rest, left, lib)
  {
    hide EncodeItems, Shown, Reported;
    forall i | 0 < i < |cmds|
      ensures PairAt(cmds, replies, lib, i) == PairAt(rest, left, lib, i - 1)
    {
      if i < |replies| {
        assert left[i..] == replies[i + 1..];
      }
    }
  }

  /** Whether reading on to the end of the commands meets a panic. */
  predicate EndsInPanic(reqs: seq<Byte>, resps: seq<Byte>, lib: Library)
    decreases |reqs|
  {
    match ReadCommand(reqs, lib)
    case Panic => true
    case Err(_) => false
    case Got(_, reqs') => ReadReply(resps).Panic? || EndsInPanic(reqs', ReadReply(resps).rest, lib)
  }

  lemma {:induction false} CrashNeedsPanic(reqs: seq<Byte>, resps: seq<Byte>, lib: Library, f: Filter, k: nat)
    ensures HandleAll(reqs, resps, lib, f, k).crashed ==> EndsInPanic(reqs, resps, lib)
    decreases |reqs|
  {
    hide ReadCommand, ReadReply, Exchange, Filter.Passes;
    var c := ReadCommand(reqs, lib);
    if c.Got? && !ReadReply(resps).Panic? {
      CrashNeedsPanic(c.rest, ReadReply(resps).rest, lib, f, k + 1);
    }
  }

  function Flatten<T>(ss: seq<seq<T>>): seq<T> {
    if ss == [] then [] else ss[0] + Flatten(ss[1..])
  }

  /** What the pairs by position send, each where it comes. */
  function PairsSent(cmds: seq<seq<seq<Byte>>>, replies: seq<RespValue>, lib: Library, f: Filter, k: nat, n: nat):
    seq<seq<Line>>
    requires n <= |cmds| && n <= |replies|
  {
    Flatten(seq(n, i requires 0 <= i < n => Exchange(Reported(cmds[i], lib), Shown(replies[i]), f, k + i)))
  }

  /** Some command that the filters pass has no reply. */
  predicate Unanswered(cmds: seq<seq<seq<Byte>>>, replies: seq<RespValue>, lib: Library, f: Filter, i: nat) {
    |replies| <= i < |cmds| && f.Passes(Reported(cmds[i], lib))
  }

  lemma {:induction false} JoinedFlat(ts: seq<Turn>, f: Filter, k: nat)
    ensures Joined(ts, f, k) == Flatten(seq(|ts|, i requires 0 <= i < |ts| => Shows(ts[i], f, k + i)))
    decreases |ts|
  {
    hide Shows;
    if ts != [] {
      JoinedFlat(ts[1..], f, k + 1);
      var all := seq(|ts|, i requires 0 <= i < |ts| => Shows(ts[i], f, k + i));
      assert all[1..] == seq(|ts| - 1, i requires 0 <= i < |ts| - 1 => Shows(ts[1..][i], f, k + 1 + i));
    }
  }

  lemma {:induction false} FlattenEmpty<T>(ss: seq<seq<T>>, more: seq<seq<T>>)
    requires forall i :: 0 <= i < |more| ==> more[i] == []
    ensures Flatten(ss + more) == Flatten(ss)
    decreases |ss| + |more|
  {
    if ss != [] {
      FlattenEmpty(ss[1..], more);
      assert (ss + more)[1..] == ss[1..] + more;
    } else if more != [] {
      FlattenEmpty([], more[1..]);
      assert ss + more == more && [] + more[1..] == more[1..];
    }
  }

  lemma {:induction false} RoundsDoneIs(ts: seq<Turn>, f: Filter, n: nat)
    requires n <= |ts| && (n < |ts| ==> Stops(ts[n], f))
    requires forall i :: 0 <= i < n ==> !Stops(ts[i], f)
    ensures RoundsDone(ts, f) == n
    decreases n
  {
    hide Stops;
    if n > 0 {
      RoundsDoneIs(ts[1..], f, n - 1);
    }
  }

  function Pairs(cmds: seq<seq<seq<Byte>>>, replies: seq<RespValue>, lib: Library): (ts: seq<Turn>)
    ensures |ts| == |cmds|
  {
    seq(|cmds|, i requires 0 <= i < |cmds| => PairAt(cmds, replies, lib, i))
  }

  lemma PairStops(cmds: seq<seq<seq<Byte>>>, replies: seq<RespValue>, lib: Library, f: Filter, i: nat)
    requires i < |cmds|
    ensures Stops(Pairs(cmds, replies, lib)[i], f) <==> Unanswered(cmds, replies, lib, f, i)
    ensures i >= |replies| ==> Pairs(cmds, replies, lib)[i].reply.Err?
    ensures Pairs(cmds, replies, lib)[i].cmd == Reported(cmds[i], lib)
    ensures forall k :: Shows(Pairs(cmds, replies, lib)[i], f, k) ==
              if i < |replies| then Exchange(Reported(cmds[i], lib), Shown(replies[i]), f, k) else []
  {
    hide Exchange, Shown, Reported, Filter.Passes, EncodeItems;
  }

  function Least(a: nat, b: nat): nat {
    if a < b then a else b
  }

  /** Rounds beyond the replies that do not stop the loop send nothing. */
  lemma JoinedPairs(cmds: seq<seq<seq<Byte>>>, replies: seq<RespValue>, lib: Library, f: Filter, k: nat, n: nat)
    requires Least(|replies|, |cmds|) <= n <= |cmds|
    ensures Joined(Pairs(cmds, replies, lib)[..n], f, k)
            == PairsSent(cmds, replies, lib, f, k, Least(|replies|, |cmds|))
  {
    hide Joined, Flatten, Exchange, Shows, PairAt, Reported, Shown, Pairs;
    var ts, m := Pairs(cmds, replies, lib)[..n], Least(|replies|, |cmds|);
    JoinedFlat(ts, f, k);
    var sent := seq(n, i requires 0 <= i < n => Shows(ts[i], f, k + i));
    var pairs := seq(m, i requires 0 <= i < m => Exchange(Reported(cmds[i], lib), Shown(replies[i]), f, k + i));
    forall i | 0 <= i < n
      ensures sent[i] == if i < m then pairs[i] else []
    {
      PairStops(cmds, replies, lib, f, i);
    }
    assert sent[..m] == pairs && sent == sent[..m] + sent[m..];
    FlattenEmpty(pairs, sent[m..]);
  }

  ghost predicate FirstUnanswered(cmds: seq<seq<seq<Byte>>>, replies: seq<RespValue>, lib: Library, f: Filter, u: nat) {
    && Unanswered(cmds, replies, lib, f, u)
    && forall i :: 0 <= i < u ==> !Unanswered(cmds, replies, lib, f, i)
  }

  /**
   On well-formed streams of any lengths and under any filters the handler sends the k-th command
   with the k-th reply, in order and once each, unless filtered; and then the first command that
   passes but has no reply, if there is one, twice.
   */
  lemma LockStep(cmds: seq<seq<seq<Byte>>>, replies: seq<RespValue>, lib: Library, f: Filter, k: nat)
    requires forall i :: 0 <= i < |cmds| ==> Fits(cmds[i])
    requires forall i :: 0 <= i < |replies| ==> WellFormed(replies[i])
    ensures var out := HandleAll(EncodeCommands(cmds), EncodeItems(replies), lib, f, k);
            var pairs := PairsSent(cmds, replies, lib, f, k, Least(|replies|, |cmds|));
            && !out.crashed
            && (forall u: nat :: FirstUnanswered(cmds, replies, lib, f, u) ==>
                  var last := [Asked(Reported(cmds[u], lib))];
                  out.sent == pairs + [last, last])
            && ((forall u: nat :: !Unanswered(cmds, replies, lib, f, u)) ==> out.sent == pairs)
  {
    hide HandleAll, Turns, Joined, PairsSent, Stops, Unanswered, Fits, WellFormed, RoundsDone, EncodeCommands,
         EncodeItems, PairAt, Reported, Shown, EndsInPanic, Pairs;
    var reqs, resps := EncodeCommands(cmds), EncodeItems(replies);
    TurnsPair(cmds, replies, lib);
    CrashNeedsPanic(reqs, resps, lib, f, k);
    HandleMeaning(reqs, resps, lib, f, k);
    var ts := Pairs(cmds, replies, lib);
    forall i: nat | i < |cmds|
      ensures Stops(ts[i], f) <==> Unanswered(cmds, replies, lib, f, i)
    {
      PairStops(cmds, replies, lib, f, i);
    }
    forall u: nat | FirstUnanswered(cmds, replies, lib, f, u)
      ensures u < |cmds|
    {
      UnansweredRange(cmds, replies, lib, f, u);
    }
    forall u: nat | u < |cmds| && FirstUnanswered(cmds, replies, lib, f, u)
      ensures var last := [Asked(Reported(cmds[u], lib))];
              HandleAll(reqs, resps, lib, f, k).sent
              == PairsSent(cmds, replies, lib, f, k, Least(|replies|, |cmds|)) + [last, last]
    {
      UnansweredRange(cmds, replies, lib, f, u);
      PairStops(cmds, replies, lib, f, u);
      RoundsDoneIs(ts, f, u);
      JoinedPairs(cmds, replies, lib, f, k, u);
    }
    if forall u: nat :: !Unanswered(cmds, replies, lib, f, u) {
      RoundsDoneIs(ts, f, |cmds|);
      JoinedPairs(cmds, replies, lib, f, k, |cmds|);
      EmptyRight<seq<Line>>(Joined(ts[..|cmds|], f, k), []);
    }
  }

  lemma UnansweredRange(cmds: seq<seq<seq<Byte>>>, replies: seq<RespValue>, lib: Library, f: Filter, u: nat)
    requires Unanswered(cmds, replies, lib, f, u)
    ensures |replies| <= u < |cmds|
  {
  }

  /** A command is sent twice if and only if some command passes the filters and has no reply. */
  lemma SentTwiceExactly(cmds: seq<seq<seq<Byte>>>, replies: seq<RespValue>, lib: Library, f: Filter, k: nat)
    requires forall i :: 0 <= i < |cmds| ==> Fits(cmds[i])
    requires forall i :: 0 <= i < |replies| ==> WellFormed(replies[i])
    ensures (exists u: nat :: Unanswered(cmds, replies, lib, f, u)) <==>
            |HandleAll(EncodeCommands(cmds), EncodeItems(replies), lib, f, k).sent|
            == |PairsSent(cmds, replies, lib, f, k, Least(|replies|, |cmds|))| + 2
  {
    hide HandleAll, PairsSent, Unanswered, Fits, WellFormed, EncodeCommands, EncodeItems, Reported;
    LockStep(cmds, replies, lib, f, k);
    if exists u: nat :: Unanswered(cmds, replies, lib, f, u) {
      var u := FirstOf(cmds, replies, lib, f);
      assert FirstUnanswered(cmds, replies, lib, f, u);
    }
  }

  lemma FirstOf(cmds: seq<seq<seq<Byte>>>, replies: seq<RespValue>, lib: Library, f: Filter) returns (u: nat)
    requires exists u: nat :: Unanswered(cmds, replies, lib, f, u)
    ensures FirstUnanswered(cmds, replies, lib, f, u)
  {
    hide Unanswered;
    var v: nat :| Unanswered(cmds, replies, lib, f, v);
    u := 0;
    while !Unanswered(cmds, replies, lib, f, u)
      invariant u <= v && forall i :: 0 <= i < u ==> !Unanswered(cmds, replies, lib, f, i)
      decreases v - u
    {
      u := u + 1;
    }
  }
}
