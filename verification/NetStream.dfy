/**
 One direction of a connection as a byte stream (tcpport/assembler.go): the assembler
 appends and confirms packets, a handler reads, prepends and closes.
 */
module NetStream {
  import opened Bytes
  import opened TcpSeq
  import opened SegmentWindow
  import opened ReceiveWindow
  import opened Seqs
  import opened WindowRuns

  /** finished: the channel is closed. closed: a FIN or RST was seen. ignore: the handler left. */
  datatype NetState = NetState(
    window: Window, queue: seq<Segment>, finished: bool,
    remain: seq<Byte>, ignore: bool, closed: bool)
  {
    /** Everything a reader will still get of what has been released. */
    function Logical(): seq<Byte>
    {
      remain + Payloads(queue)
    }

    /** A read returns now: there is a byte to give, or the end of the stream to report. */
    ghost predicate Ready()
    {
      finished || Logical() != []
    }

    function Append(s: Segment): NetState
    {
      if ignore then this else this.(window := Inserted(window, s))
    }

    function Confirm(ack: U32): NetState
    {
      if ignore then this
      else
        var r := Confirmed(window, ack);
        this.(window := r.window, queue := queue + r.sent)
    }

    /** Receives packets until there is something to copy or the channel is drained. */
    function Refill(): (r: NetState)
      decreases |queue|
    {
      if remain != [] || queue == [] then this
      else this.(remain := queue[0].payload, queue := queue[1..]).Refill()
    }

    /** How many bytes one read of at most n bytes returns, after refilling. */
    function Taken(n: nat): nat
    {
      if |remain| > n then n else |remain|
    }
  }

  /** The bytes one read has to choose from: those left over, otherwise the first payload that has any. */
  ghost predicate IsChunk(s: NetState, chunk: seq<Byte>)
  {
    if s.remain != [] then chunk == s.remain
    else if forall q <- s.queue :: q.payload == [] then chunk == []
    else
      exists i :: 0 <= i < |s.queue| && chunk == s.queue[i].payload != [] &&
                  forall j :: 0 <= j < i ==> s.queue[j].payload == []
  }

  /** got is the front of the chunk, n bytes of it or all. */
  ghost predicate IsFront(s: NetState, n: nat, got: seq<Byte>)
  {
    exists chunk :: IsChunk(s, chunk) && got <= chunk && |got| == if n < |chunk| then n else |chunk|
  }

  lemma {:induction false} RefillChunk(s: NetState)
    ensures IsChunk(s, s.Refill().remain)
    decreases |s.queue|
  {
    if s.remain == [] && s.queue != [] {
      var q, t := s.queue[0], s.(remain := s.queue[0].payload, queue := s.queue[1..]);
      RefillChunk(t);
      if q.payload == [] {
        forall i | 0 <= i < |t.queue|
          ensures t.queue[i] == s.queue[i + 1]
        {
        }
      }
    }
  }

  const NEW_STREAM: NetState := NetState(EMPTY, [], false, [], false, false)

  lemma {:induction false} RefillMeaning(s: NetState)
    ensures s.Refill().Logical() == s.Logical()
    ensures s.Refill().remain == [] <==> s.Logical() == []
    ensures s.Refill().remain == [] ==> s.Refill().queue == []
    ensures s.Refill() == s.(remain := s.Refill().remain, queue := s.Refill().queue)
    decreases |s.queue|
  {
    if s.remain == [] && s.queue != [] {
      var t := s.(remain := s.queue[0].payload, queue := s.queue[1..]);
      assert s.Logical() == t.Logical();
      RefillMeaning(t);
    }
  }

  /** In Go an io.Reader: fills p from the front. */
  class NetStream {
    const window: ReceiveWindow
    const c: Channel
    var remain: seq<Byte>
    var ignore: bool
    var closed: bool

    ghost predicate Valid()
      reads this, window, window.buffer
    {
      window.Valid()
    }

    ghost function Value(): NetState
      reads this, window, c
    {
      NetState(window.Value(), c.queue, c.closed, remain, ignore, closed)
    }

    constructor ()
      ensures Valid() && Value() == NEW_STREAM
      ensures fresh(window) && fresh(window.buffer) && fresh(c)
    {
      window := new ReceiveWindow(64);
      c := new Channel();
      remain, ignore, closed := [], false, false;
    }

    method AppendPacket(s: Segment)
      requires Valid()
      modifies window, window.buffer
      ensures Valid() && (window.buffer == old(window.buffer) || fresh(window.buffer))
      ensures Value() == old(Value()).Append(s)
    {
      if ignore {
        return;
      }
      window.Insert(s);
    }

    method ConfirmPacket(ack: U32)
      requires Valid() && (ignore || !c.closed)
      modifies window, window.buffer, c`queue
      ensures Valid() && window.buffer == old(window.buffer)
      ensures Value() == old(Value()).Confirm(ack)
    {
      if ignore {
        return;
      }
      window.Confirm(ack, c);
    }

    method Finish()
      requires !c.closed
      modifies c`closed
      ensures Value() == old(Value()).(finished := true)
    {
      c.Close();
    }

    method Prepend(data: seq<Byte>)
      modifies `remain
      ensures Value() == old(Value()).(remain := data + old(remain))
    {
      if |data| > 0 {
        var buf := data;
        buf := buf + remain;
        remain := buf;
      } else {
        assert data + remain == remain;
      }
    }

    /** The receive loop of Read; ok is false at the end of the stream. */
    method Fill() returns (ok: bool)
      requires Value().Ready()
      modifies `remain, c`queue
      ensures Value() == old(Value()).Refill() && ok == (remain != [])
    {
      while |remain| == 0
        invariant Value().Refill() == old(Value()).Refill()
        invariant Value() == old(Value()).(remain := remain, queue := c.queue)
        invariant Value().Ready()
        decreases |c.queue|, |remain| == 0
      {
        RefillMeaning(Value());
        var packet;
        packet, ok := c.Receive();
        if !ok {
          return;
        }
        remain := packet.payload;
      }
      ok := true;
    }

    /** Blocks unless Ready(), which is therefore the precondition. */
    method Read(p: array<Byte>) returns (n: nat, eof: bool)
      requires Value().Ready()
      modifies `remain, c`queue, p
      ensures var s := old(Value()).Refill();
              && eof == (s.remain == [])
              && n == s.Taken(p.Length)
              && p[..n] == s.remain[..n]
              && p[n..] == old(p[n..])
              && Value() == s.(remain := s.remain[n..])
      ensures IsFront(old(Value()), p.Length, p[..n])
    {
      RefillChunk(Value());
      var ok := Fill();
      eof := !ok;
      if eof {
        return 0, true;
      }
      if |remain| > p.Length {
        n := p.Length;
        forall i | 0 <= i < n {
          p[i] := remain[i];
        }
        remain := remain[p.Length..];
      } else {
        n := |remain|;
        forall i | 0 <= i < n {
          p[i] := remain[i];
        }
        remain := [];
      }
    }

    method Close()
      modifies `ignore
      ensures Value() == old(Value()).(ignore := true)
    {
      ignore := true;
    }
  }

  // Draining a stream while the assembler goes on.

  function Handled(s: NetState, ev: Event): NetState {
    match ev
    case Arrive(seg) => s.Append(seg)
    case Ack(n) => s.Confirm(n)
  }

  /** The window after more packets and the bytes a reader will get until then; an ignored stream takes no packet. */
  function WindowAfter(s: NetState, evs: seq<Event>): Window {
    if s.ignore then s.window else Run(s.window, evs).window
  }

  function ToCome(s: NetState, evs: seq<Event>): seq<Byte> {
    s.Logical() + (if s.ignore then [] else Payloads(Run(s.window, evs).sent))
  }

  lemma HandledNext(s: NetState, evs: seq<Event>)
    requires evs != []
    ensures ToCome(Handled(s, evs[0]), evs[1..]) == ToCome(s, evs)
    ensures WindowAfter(Handled(s, evs[0]), evs[1..]) == WindowAfter(s, evs)
    ensures Handled(s, evs[0]) == s.(window := Handled(s, evs[0]).window, queue := Handled(s, evs[0]).queue)
  {
    if !s.ignore && evs[0].Ack? {
      var r := Confirmed(s.window, evs[0].number);
      var rest := Run(r.window, evs[1..]);
      PayloadsConcat(s.queue, r.sent);
      PayloadsConcat(r.sent, rest.sent);
      Assoc(s.remain, Payloads(s.queue), Payloads(r.sent));
      Assoc(s.Logical(), Payloads(r.sent), Payloads(rest.sent));
    }
  }

  predicate HasBytes(queue: seq<Segment>) {
    exists s <- queue :: s.payload != []
  }

  lemma {:induction false} QueuedBytes(queue: seq<Segment>)
    ensures Payloads(queue) != [] <==> HasBytes(queue)
  {
    if queue != [] {
      QueuedBytes(queue[1..]);
      assert queue == [queue[0]] + queue[1..];
    }
  }

  lemma ReadyNow(s: NetState)
    ensures s.Ready() <==> s.finished || s.remain != [] || HasBytes(s.queue)
  {
    hide HasBytes;
    QueuedBytes(s.queue);
  }

  lemma FinishedNext(s: NetState, evs: seq<Event>)
    ensures var t := s.(finished := true);
            ToCome(t, evs) == ToCome(s, evs) && WindowAfter(t, evs) == WindowAfter(s, evs)
  {
  }

  /** The assembler hands the next packet to the stream, or finishes it when there is none. */
  method Advance(r: NetStream, evs: seq<Event>) returns (rest: seq<Event>)
    requires r.Valid() && !r.c.closed
    modifies r.c, r.window, r.window.buffer
    ensures r.Valid() && (r.window.buffer == old(r.window.buffer) || fresh(r.window.buffer))
    ensures rest == if evs == [] then [] else evs[1..]
    ensures r.Value() == if evs == [] then old(r.Value()).(finished := true) else Handled(old(r.Value()), evs[0])
  {
    if evs == [] {
      r.Finish();
      return [];
    }
    match evs[0] {
      case Arrive(s) => r.AppendPacket(s);
      case Ack(n) => r.ConfirmPacket(n);
    }
    rest := evs[1..];
  }

  /** Any number of steps of the assembler, and as many as it takes for a read to return. */
  method Meanwhile(r: NetStream, evs: seq<Event>) returns (rest: seq<Event>)
    requires r.Valid() && (r.c.closed ==> evs == [])
    modifies r.c, r.window, r.window.buffer
    ensures r.Valid() && (r.window.buffer == old(r.window.buffer) || fresh(r.window.buffer))
    ensures r.Value().Ready() && (r.c.closed ==> rest == [])
    ensures var s, t := old(r.Value()), r.Value();
            && ToCome(t, rest) == ToCome(s, evs) && WindowAfter(t, rest) == WindowAfter(s, evs)
            && t == s.(window := t.window, queue := t.queue, finished := t.finished)
  {
    hide HasBytes, Handled, ToCome, WindowAfter;
    rest := evs;
    var more: nat :| more <= |evs| + 1;
    while !r.c.closed && (more > 0 || (r.remain == [] && !HasBytes(r.c.queue)))
      invariant r.Valid() && (r.window.buffer == old(r.window.buffer) || fresh(r.window.buffer))
      invariant r.c.closed ==> rest == []
      invariant ToCome(r.Value(), rest) == ToCome(old(r.Value()), evs)
      invariant WindowAfter(r.Value(), rest) == WindowAfter(old(r.Value()), evs)
      invariant r.Value() == old(r.Value()).(window := r.window.Value(), queue := r.c.queue, finished := r.c.closed)
      decreases |rest|, !r.c.closed
    {
      if rest == [] {
        FinishedNext(r.Value(), rest);
      } else {
        HandledNext(r.Value(), rest);
      }
      rest := Advance(r, rest);
      more := if more > 0 then more - 1 else 0;
    }
    ReadyNow(r.Value());
  }

  /** A read takes from what is to come, at least a byte or, at the end, nothing. */
  lemma ReadTakes(s: NetState, evs: seq<Event>, n: nat)
    requires s.Ready() && n > 0 && (s.finished ==> evs == [])
    ensures var t := s.Refill();
            var u := t.(remain := t.remain[t.Taken(n)..]);
            && |ToCome(s, evs)| == t.Taken(n) + |ToCome(u, evs)|
            && WindowAfter(u, evs) == WindowAfter(s, evs)
            && u == s.(remain := u.remain, queue := u.queue)
            && (t.remain != [] ==> t.Taken(n) > 0)
            && (t.remain == [] ==> s.finished && u.remain == [] && u.queue == [])
            && (t.remain == [] ==> ToCome(u, evs) == [] && WindowAfter(u, evs) == u.window)
  {
    RefillMeaning(s);
  }

  /**
   Reading and discarding until the end of the stream (tcpport/text.go), while the assembler handles
   the packets evs and then finishes the stream: the count is that of all bytes still to come.
   */
  method DiscardAll(r: NetStream, evs: seq<Event>) returns (n: nat)
    requires r.Valid() && (r.c.closed ==> evs == [])
    modifies r`remain, r.c, r.window, r.window.buffer
    ensures n == |ToCome(old(r.Value()), evs)|
    ensures r.Valid()
    ensures r.Value() == old(r.Value()).(
              window := WindowAfter(old(r.Value()), evs), remain := [], queue := [], finished := true)
  {
    hide ToCome, WindowAfter, NetState.Refill, NetState.Logical;
    var buf := new Byte[32768];
    var rest := evs;
    n := 0;
    while true
      invariant r.Valid() && (r.c.closed ==> rest == [])
      invariant r.window.buffer == old(r.window.buffer) || fresh(r.window.buffer)
      invariant fresh(buf) && buf.Length == 32768
      invariant n + |ToCome(r.Value(), rest)| == |ToCome(old(r.Value()), evs)|
      invariant WindowAfter(r.Value(), rest) == WindowAfter(old(r.Value()), evs)
      invariant r.Value() == old(r.Value()).(
                  window := r.window.Value(), remain := r.remain, queue := r.c.queue, finished := r.c.closed)
      decreases |ToCome(r.Value(), rest)|
    {
      rest := Meanwhile(r, rest);
      ReadTakes(r.Value(), rest, buf.Length);
      var nn, eof := r.Read(buf);
      n := n + nn;
      if eof {
        break;
      }
    }
  }

  /**
   The peek of protocol detection (main.go): read up to 24 bytes and put them back. The
   logical stream is unchanged, and what was seen is its front.
   */
  method Peek(r: NetStream) returns (seen: seq<Byte>, eof: bool)
    requires r.Value().Ready()
    modifies r`remain, r.c`queue
    ensures r.Value().Logical() == old(r.Value()).Logical()
    ensures r.Value() == old(r.Value()).(remain := r.remain, queue := r.c.queue)
    ensures seen <= r.Value().Logical() && |seen| <= 24
    ensures eof <==> seen == []
    ensures eof <==> old(r.Value()).Logical() == []
    ensures IsFront(old(r.Value()), 24, seen)
  {
    hide IsFront, IsChunk;
    RefillMeaning(r.Value());
    ghost var s := r.Value().Refill();
    var buf := new Byte[24];
    var n;
    n, eof := r.Read(buf);
    seen := buf[..n];
    if n > 0 {
      r.Prepend(seen);
      assert r.remain == s.remain;
    }
  }
}
