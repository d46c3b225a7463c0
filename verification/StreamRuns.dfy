/**
 Every interleaving of the assembler's steps on a stream (append, confirm, finish) with the
 handler's steps (read, put back, close), from tcpport/assembler.go and main.go.
 */
module StreamRuns {
  import opened Bytes
  import opened SegmentWindow
  import opened Seqs
  import opened WindowRuns
  import opened NetStream

  /** Fin notes a FIN or RST. Unread(k) prepends the last k bytes consumed, as detection does with what it peeked. */
  datatype Step = Packet(event: Event) | Fin | Finish | Read(n: nat) | Unread(k: nat) | Close

  /** A stream together with the bytes its handler has consumed. */
  datatype System = System(net: NetState, consumed: seq<Byte>)

  /** Whether a step can be taken: no panic on a closed channel, no blocked read. */
  ghost predicate Enabled(sys: System, step: Step)
  {
    match step
    case Packet(ev) => sys.net.ignore || !sys.net.finished
    case Fin => true
    case Finish => !sys.net.finished
    case Read(n) => sys.net.Ready()
    case Unread(k) => k <= |sys.consumed|
    case Close => true
  }

  /** What a read of at most n bytes returns. */
  function ReadBytes(s: NetState, n: nat): (b: seq<Byte>)
    ensures |b| <= n
  {
    s.Refill().remain[..s.Refill().Taken(n)]
  }

  function Exec(sys: System, step: Step): System
    requires Enabled(sys, step)
  {
    var s, done := sys.net, sys.consumed;
    match step
    case Packet(Arrive(seg)) => System(s.Append(seg), done)
    case Packet(Ack(n)) => System(s.Confirm(n), done)
    case Fin => System(s.(closed := true), done)
    case Finish => System(s.(finished := true), done)
    case Read(n) =>
      var t := s.Refill();
      System(t.(remain := t.remain[t.Taken(n)..]), done + ReadBytes(s, n))
    case Unread(k) =>
      System(s.(remain := done[|done| - k..] + s.remain), done[..|done| - k])
    case Close => System(s.(ignore := true), done)
  }

  ghost predicate Legal(sys: System, steps: seq<Step>)
    decreases |steps|
  {
    steps == [] || (Enabled(sys, steps[0]) && Legal(Exec(sys, steps[0]), steps[1..]))
  }

  function ExecAll(sys: System, steps: seq<Step>): System
    requires Legal(sys, steps)
    decreases |steps|
  {
    if steps == [] then sys else ExecAll(Exec(sys, steps[0]), steps[1..])
  }

  /** The packets the window gets to see: those before the handler closes the stream. */
  function Seen(steps: seq<Step>): seq<Event>
  {
    if steps == [] || steps[0] == Close then []
    else if steps[0].Packet? then [steps[0].event] + Seen(steps[1..])
    else Seen(steps[1..])
  }

  /** A read gives the front of the logical stream, and at least one byte or the end. */
  lemma ReadMeaning(s: NetState, n: nat)
    requires s.Ready()
    ensures var t := s.Refill();
            ReadBytes(s, n) + t.(remain := t.remain[t.Taken(n)..]).Logical() == s.Logical()
    ensures s.Logical() != [] && n > 0 ==> 0 < |ReadBytes(s, n)|
    ensures s.Logical() == [] ==> s.finished && ReadBytes(s, n) == []
  {
    RefillMeaning(s);
    var t := s.Refill();
    assert t.remain == t.remain[..t.Taken(n)] + t.remain[t.Taken(n)..];
  }

  function SeenBy(sys: System, steps: seq<Step>): seq<Event>
  {
    if sys.net.ignore then [] else Seen(steps)
  }

  /** Everything released so far: consumed, left over and queued. */
  function Total(sys: System): seq<Byte>
  {
    sys.consumed + sys.net.Logical()
  }

  /** What one step releases to the channel. */
  function ReleasedBy(sys: System, step: Step): seq<Segment>
  {
    if !sys.net.ignore && step.Packet? && step.event.Ack?
    then Confirmed(sys.net.window, step.event.number).sent
    else []
  }

  /** A step only ever adds to the total, and adds exactly what it releases. */
  lemma StepTotal(sys: System, step: Step)
    requires Enabled(sys, step)
    ensures Total(Exec(sys, step)) == Total(sys) + Payloads(ReleasedBy(sys, step))
  {
    var done := sys.consumed;
    match step
    case Packet(ev) =>
      if !sys.net.ignore && ev.Ack? {
        var sent := ReleasedBy(sys, step);
        PayloadsConcat(sys.net.queue, sent);
        Assoc(sys.net.remain, Payloads(sys.net.queue), Payloads(sent));
        Assoc(done, sys.net.Logical(), Payloads(sent));
      }
    case Read(n) =>
      ReadMeaning(sys.net, n);
      Assoc(done, ReadBytes(sys.net, n), Exec(sys, step).net.Logical());
    case Unread(k) =>
      var back := done[|done| - k..];
      assert done == done[..|done| - k] + back;
      Assoc(back, sys.net.remain, Payloads(sys.net.queue));
      Assoc(done[..|done| - k], back, sys.net.Logical());
    case _ =>
  }

  /** The first step of a run and the window's run. */
  lemma StepRun(sys: System, steps: seq<Step>)
    requires steps != [] && Enabled(sys, steps[0])
    ensures var next := Exec(sys, steps[0]);
            var r, rest := Run(sys.net.window, SeenBy(sys, steps)), Run(next.net.window, SeenBy(next, steps[1..]));
            r.window == rest.window && r.sent == ReleasedBy(sys, steps[0]) + rest.sent
  {
    var rest := Seen(steps[1..]);
    match steps[0]
    case Packet(ev) =>
      assert Seen(steps) == [ev] + rest;
      assert ([ev] + rest)[0] == ev && ([ev] + rest)[1..] == rest;
      if !sys.net.ignore && ev.Arrive? {
        assert Run(sys.net.window, [ev] + rest) == Run(Inserted(sys.net.window, ev.segment), rest);
      }
    case Read(n) =>
      RefillMeaning(sys.net);
    case _ =>
  }

  lemma {:induction false} Conservation(sys: System, steps: seq<Step>)
    requires Legal(sys, steps)
    ensures var end, r := ExecAll(sys, steps), Run(sys.net.window, SeenBy(sys, steps));
            end.net.window == r.window && Total(end) == Total(sys) + Payloads(r.sent)
    decreases |steps|
  {
    if steps != [] {
      var next := Exec(sys, steps[0]);
      StepTotal(sys, steps[0]);
      StepRun(sys, steps);
      Conservation(next, steps[1..]);
      var here, rest := ReleasedBy(sys, steps[0]), Run(next.net.window, SeenBy(next, steps[1..])).sent;
      PayloadsConcat(here, rest);
      Assoc(Total(sys), Payloads(here), Payloads(rest));
    }
  }

  const START: System := System(NEW_STREAM, [])

  /**
   For every interleaving: what the handler has consumed, what is left over from its last
   read and what is queued, in this order, are exactly the bytes the window has released.
   */
  lemma ConsumedIsReleased(steps: seq<Step>)
    requires Legal(START, steps)
    ensures var end := ExecAll(START, steps);
            end.consumed + end.net.Logical() == Payloads(Run(EMPTY, Seen(steps)).sent)
  {
    Conservation(START, steps);
    assert Total(START) == [];
  }

  /**
   For every interleaving over one sender's stream: the handler consumes bytes of that
   stream at strictly increasing positions, and at consecutive ones if no acknowledgement
   found a hole.
   */
  lemma ConsumedInOrder(st: Stream, steps: seq<Step>) returns (p: seq<int>)
    requires st.Valid() && Legal(START, steps) && EventsOf(st, Seen(steps))
    ensures Labels(st, p, ExecAll(START, steps).consumed)
    ensures HoleFreeRun(EMPTY, Seen(steps)) && p != [] ==> ConsecutiveFrom(p, p[0])
  {
    ConsumedIsReleased(steps);
    var q := RunInOrder(st, EMPTY, Seen(steps));
    var end := ExecAll(START, steps);
    p := q[..|end.consumed|];
    LabelsPrefix(st, q, Payloads(Run(EMPTY, Seen(steps)).sent), end.consumed, end.net.Logical());
  }

  lemma LabelsPrefix(st: Stream, q: seq<int>, all: seq<Byte>, front: seq<Byte>, back: seq<Byte>)
    requires st.Valid() && Labels(st, q, all) && all == front + back
    ensures Labels(st, q[..|front|], front)
  {
    assert forall i :: 0 <= i < |front| ==> front[i] == all[i];
  }

  /** Detection: one read put back in full leaves the logical stream and the window alone. */
  lemma PeekUnchanged(sys: System, n: nat)
    requires sys.net.Ready()
    ensures var peeked := Exec(sys, Read(n));
            var k := |ReadBytes(sys.net, n)|;
            && Enabled(peeked, Unread(k))
            && Exec(peeked, Unread(k)).consumed == sys.consumed
            && Exec(peeked, Unread(k)).net.Logical() == sys.net.Logical()
            && Exec(peeked, Unread(k)).net.window == sys.net.window
  {
    RefillMeaning(sys.net);
    var b, t := ReadBytes(sys.net, n), sys.net.Refill();
    assert (sys.consumed + b)[|sys.consumed|..] == b;
    assert (sys.consumed + b)[..|sys.consumed|] == sys.consumed;
    assert b + t.remain[t.Taken(n)..] == t.remain;
    var back := Exec(Exec(sys, Read(n)), Unread(|b|));
    assert back.net == t && back.consumed == sys.consumed;
  }
}
