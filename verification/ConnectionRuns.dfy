/**
 Whole runs of a connection: packets of its flow, steps of its handler on either stream, and
 the final close of its channels (tcpport/assembler.go). Who sent the bytes a handler reads,
 and which acknowledgement let them out.
 */
module ConnectionRuns {
  import opened Wrappers
  import opened TcpSeq
  import opened SegmentWindow
  import opened WindowRuns
  import opened StreamRuns
  import opened Endpoints
  import opened Connection

  datatype Side = Up | Down

  datatype ConnSystem = ConnSystem(up: System, down: System, client: Option<Endpoint>) {
    function State(): ConnState
    {
      ConnState(up.net, down.net, client)
    }

    function On(side: Side): System
    {
      if side == Up then up else down
    }
  }

  type HandlerStep = s: Step | s.Read? || s.Unread? || s.Close? witness Close

  datatype ConnStep =
    | Receive(arrival: Arrival)
    | Handle(side: Side, step: HandlerStep)
    | Finish

  const CONNECTION_START: ConnSystem := ConnSystem(START, START, None)

  ghost predicate ConnEnabled(sys: ConnSystem, step: ConnStep)
  {
    match step
    case Receive(a) => sys.State().Open()
    case Handle(side, st) => Enabled(sys.On(side), st)
    case Finish => sys.State().Open()
  }

  function ConnExec(sys: ConnSystem, step: ConnStep): ConnSystem
    requires ConnEnabled(sys, step)
  {
    match step
    case Receive(a) =>
      var v := sys.State().Receive(a.src, a.packet);
      ConnSystem(sys.up.(net := v.up), sys.down.(net := v.down), v.client)
    case Handle(Up, st) => sys.(up := Exec(sys.up, st))
    case Handle(Down, st) => sys.(down := Exec(sys.down, st))
    case Finish =>
      var v := sys.State().Finish();
      ConnSystem(sys.up.(net := v.up), sys.down.(net := v.down), v.client)
  }

  ghost predicate ConnLegal(sys: ConnSystem, steps: seq<ConnStep>)
    decreases |steps|
  {
    steps == [] || (ConnEnabled(sys, steps[0]) && ConnLegal(ConnExec(sys, steps[0]), steps[1..]))
  }

  function ConnExecAll(sys: ConnSystem, steps: seq<ConnStep>): ConnSystem
    requires ConnLegal(sys, steps)
    decreases |steps|
  {
    if steps == [] then sys else ConnExecAll(ConnExec(sys, steps[0]), steps[1..])
  }

  /** Whether src is the sending side of this stream, c being the client. */
  predicate Sends(side: Side, c: Endpoint, src: Endpoint)
  {
    (c == src) == (side == Up)
  }

  /** What one connection step means to the stream on one side. */
  function Project(side: Side, c: Endpoint, step: ConnStep): seq<Step>
  {
    match step
    case Receive(a) =>
      if Sends(side, c, a.src) then
        if a.packet.fin || a.packet.rst then [Packet(Arrive(a.packet.Segment())), Fin]
        else [Packet(Arrive(a.packet.Segment()))]
      else if a.packet.ack then [Packet(Ack(a.packet.ackNo))] else []
    case Handle(s, st) => if s == side then [st] else []
    case Finish => [Step.Finish]
  }

  function Prefixed<T>(a: seq<T>, b: seq<T>): seq<T>
  {
    if a == [] then b else a + b
  }

  function ProjectAll(side: Side, c: Endpoint, steps: seq<ConnStep>): seq<Step>
  {
    if steps == [] then []
    else Prefixed(Project(side, c, steps[0]), ProjectAll(side, c, steps[1..]))
  }

  /** The client is set to c, or will be by the first packet. */
  ghost predicate ClientIs(client: Option<Endpoint>, steps: seq<ConnStep>, c: Endpoint)
  {
    match client
    case Some(e) => e == c
    case None =>
      steps != [] ==>
        if steps[0].Receive? then steps[0].arrival.src == c else ClientIs(None, steps[1..], c)
  }

  lemma {:induction false} ExecAllAppend(sys: System, a: seq<Step>, b: seq<Step>)
    requires Legal(sys, a) && Legal(ExecAll(sys, a), b)
    ensures Legal(sys, a + b) && ExecAll(sys, a + b) == ExecAll(ExecAll(sys, a), b)
    decreases |a|
  {
    hide Exec, Enabled;
    if a == [] {
      assert a + b == b;
    } else {
      assert (a + b)[0] == a[0] && (a + b)[1..] == a[1..] + b;
      ExecAllAppend(Exec(sys, a[0]), a[1..], b);
    }
  }

  /** One step of the connection is the projected steps of each stream. */
  lemma StepProjects(sys: ConnSystem, step: ConnStep, c: Endpoint, side: Side)
    requires ConnEnabled(sys, step)
    requires sys.client == Some(c) || (sys.client == None && (step.Receive? ==> step.arrival.src == c))
    ensures Legal(sys.On(side), Project(side, c, step))
    ensures ConnExec(sys, step).On(side) == ExecAll(sys.On(side), Project(side, c, step))
  {
    var mine := Project(side, c, step);
    match step
    case Receive(a) =>
      if Sends(side, c, a.src) && (a.packet.fin || a.packet.rst) {
        var next := Exec(sys.On(side), mine[0]);
        assert mine[1..] == [Fin] && Legal(next, [Fin]) && ExecAll(next, [Fin]) == Exec(next, Fin);
      }
    case _ =>
  }

  /** Each stream of a connection runs exactly its projection of the connection's run. */
  lemma {:induction false} RunProjects(sys: ConnSystem, steps: seq<ConnStep>, c: Endpoint, side: Side)
    requires ConnLegal(sys, steps) && ClientIs(sys.client, steps, c)
    ensures Legal(sys.On(side), ProjectAll(side, c, steps))
    ensures ConnExecAll(sys, steps).On(side) == ExecAll(sys.On(side), ProjectAll(side, c, steps))
    decreases |steps|
  {
    if steps != [] {
      StepProjects(sys, steps[0], c, side);
      RunProjects(ConnExec(sys, steps[0]), steps[1..], c, side);
      ExecAllAppend(sys.On(side), Project(side, c, steps[0]), ProjectAll(side, c, steps[1..]));
    }
  }

  // Where released segments come from

  /** t is what is left of s after trimming. */
  ghost predicate Remnant(t: Segment, s: Segment)
  {
    t.begin == s.begin && |t.payload| <= |s.payload| && t.payload == s.payload[|s.payload| - |t.payload|..]
  }

  /** Event i brought the segment and a later event j acknowledged beyond its first byte. */
  ghost predicate Justified(evs: seq<Event>, t: Segment, i: int, j: int)
  {
    && 0 <= i < j < |evs|
    && evs[i].Arrive? && Remnant(t, evs[i].segment)
    && evs[j].Ack? && Compare(t.begin, evs[j].number) < 0
  }

  lemma {:induction false} ConfirmedSources(w: Window, ack: U32)
    ensures forall t <- Confirmed(w, ack).sent ::
              Compare(t.begin, ack) < 0 && exists s <- w.contents :: Remnant(t, s)
    ensures forall s <- Confirmed(w, ack).window.contents :: s in w.contents
    decreases |w.contents|
  {
    if w.contents != [] && Compare(w.contents[0].begin, ack) < 0 {
      var s, tail := w.contents[0], w.contents[1..];
      assert w.contents == [s] + tail;
      match Trim(w.next, s)
      case None => ConfirmedSources(Window(tail, w.next), ack);
      case Some(t) =>
        ConfirmedSources(Window(tail, s.End()), ack);
        assert Remnant(t, s) && s in w.contents;
    }
  }

  lemma InsertedSources(w: Window, s: Segment)
    ensures forall x <- Inserted(w, s).contents :: x == s || x in w.contents
  {
  }

  /**
   For all inputs, inside an epoch or not: nothing is released unless it arrived earlier and
   an acknowledgement beyond its first byte followed.
   */
  lemma {:induction false} ReleasedSources(w: Window, past: seq<Event>, evs: seq<Event>, t: Segment)
    returns (i: int, j: int)
    requires forall s <- w.contents :: Arrive(s) in past
    requires t in Run(w, evs).sent
    ensures Justified(past + evs, t, i, j)
    decreases |evs|
  {
    var ev, all := evs[0], past + evs;
    assert all == (past + [ev]) + evs[1..];
    assert all[|past|] == ev;
    match ev
    case Arrive(s) =>
      InsertedSources(w, s);
      assert Arrive(s) in past + [ev];
      i, j := ReleasedSources(Inserted(w, s), past + [ev], evs[1..], t);
    case Ack(n) =>
      ConfirmedSources(w, n);
      var r := Confirmed(w, n);
      if t in r.sent {
        var s :| s in w.contents && Remnant(t, s);
        i :| 0 <= i < |past| && past[i] == Arrive(s);
        j := |past|;
        assert all[i] == past[i];
      } else {
        i, j := ReleasedSources(r.window, past + [ev], evs[1..], t);
      }
  }

  lemma ReleasedFromStart(evs: seq<Event>, t: Segment) returns (i: int, j: int)
    requires t in Run(EMPTY, evs).sent
    ensures Justified(evs, t, i, j)
  {
    i, j := ReleasedSources(EMPTY, [], evs, t);
    assert [] + evs == evs;
  }

  /** Step i of the connection is the packet that gave the stream the event ev. */
  ghost predicate Gives(side: Side, c: Endpoint, steps: seq<ConnStep>, i: int, ev: Event)
  {
    && 0 <= i < |steps| && steps[i].Receive?
    && Project(side, c, steps[i]) != [] && Project(side, c, steps[i])[0] == Packet(ev)
  }

  lemma GivesShift(side: Side, c: Endpoint, steps: seq<ConnStep>, i: int, ev: Event)
    requires steps != [] && Gives(side, c, steps[1..], i, ev)
    ensures Gives(side, c, steps, i + 1, ev)
  {
    assert steps[1..][i] == steps[i + 1];
  }

  /** The k-th event of a projection is given by some packet of the connection. */
  lemma {:induction false} EventIndex(side: Side, c: Endpoint, steps: seq<ConnStep>, evs: seq<Event>, k: nat)
    returns (i: nat)
    requires evs == Seen(ProjectAll(side, c, steps)) && k < |evs|
    ensures Gives(side, c, steps, i, evs[k])
    decreases |steps|
  {
    var one, tail := SeenStep(side, c, steps, evs);
    if one && k == 0 {
      i := 0;
    } else {
      hide Seen, ProjectAll;
      var k' := if one then k - 1 else k;
      var i' := EventIndex(side, c, steps[1..], tail, k');
      GivesShift(side, c, steps, i', tail[k']);
      i := i' + 1;
    }
  }

  /** Two events of a projection are given by packets in the same order. */
  lemma {:induction false} EventIndices(side: Side, c: Endpoint, steps: seq<ConnStep>, evs: seq<Event>, k: nat, l: nat)
    returns (i: nat, j: nat)
    requires evs == Seen(ProjectAll(side, c, steps)) && k < l < |evs|
    ensures i < j && Gives(side, c, steps, i, evs[k]) && Gives(side, c, steps, j, evs[l])
    decreases |steps|
  {
    var one, tail := SeenStep(side, c, steps, evs);
    if one && k == 0 {
      var j' := EventIndex(side, c, steps[1..], tail, l - 1);
      GivesShift(side, c, steps, j', tail[l - 1]);
      i, j := 0, j' + 1;
    } else {
      hide Seen, ProjectAll;
      var k', l' := if one then k - 1 else k, if one then l - 1 else l;
      var i', j' := EventIndices(side, c, steps[1..], tail, k', l');
      GivesShift(side, c, steps, i', tail[k']);
      GivesShift(side, c, steps, j', tail[l']);
      i, j := i' + 1, j' + 1;
    }
  }

  /** The events of a projection: at most one from the first step, then those of the rest. */
  lemma SeenStep(side: Side, c: Endpoint, steps: seq<ConnStep>, evs: seq<Event>)
    returns (one: bool, tail: seq<Event>)
    requires evs == Seen(ProjectAll(side, c, steps)) && evs != []
    ensures steps != [] && tail == Seen(ProjectAll(side, c, steps[1..]))
    ensures if one then evs[1..] == tail && Gives(side, c, steps, 0, evs[0]) else evs == tail
  {
    tail := Seen(ProjectAll(side, c, steps[1..]));
    one := SeenProject(side, c, steps[0], ProjectAll(side, c, steps[1..]));
  }

  /** A step contributes at most one event, and only when it is a packet. */
  lemma SeenProject(side: Side, c: Endpoint, step: ConnStep, rest: seq<Step>) returns (one: bool)
    ensures var mine := Project(side, c, step);
            if one then
              && step.Receive? && mine != [] && mine[0].Packet?
              && Seen(Prefixed(mine, rest)) == [mine[0].event] + Seen(rest)
            else Seen(Prefixed(mine, rest)) == Seen(rest) || Seen(Prefixed(mine, rest)) == []
  {
    var mine := Project(side, c, step);
    one := mine != [] && mine[0].Packet? && step.Receive?;
    if mine != [] {
      assert (mine + rest)[0] == mine[0] && (mine + rest)[1..] == mine[1..] + rest;
      if |mine| == 1 {
        assert mine[1..] + rest == rest;
      } else {
        assert mine[1..] + rest == [Fin] + rest;
        assert ([Fin] + rest)[1..] == rest;
      }
    }
  }

  // Provenance

  /** All packets of the run belong to the flow between c and other. */
  ghost predicate OneFlow(steps: seq<ConnStep>, c: Endpoint, other: Endpoint)
  {
    && c.Valid() && other.Valid()
    && forall st <- steps :: st.Receive? ==>
         var a := st.arrival;
         a.src.Valid() && a.dst.Valid() && Key(a.src, a.dst) == Key(c, other)
  }

  /**
   A released segment was sent by the endpoint from, and a later packet from the endpoint
   peer acknowledged beyond its first byte.
   */
  ghost predicate Provenanced(steps: seq<ConnStep>, from: Endpoint, peer: Endpoint, t: Segment)
  {
    exists i, j :: 0 <= i < j < |steps| && Carried(steps[i], from, t) && AckedBy(steps[j], peer, t)
  }

  ghost predicate Carried(step: ConnStep, from: Endpoint, t: Segment)
  {
    step.Receive? && step.arrival.src == from && Remnant(t, step.arrival.packet.Segment())
  }

  ghost predicate AckedBy(step: ConnStep, peer: Endpoint, t: Segment)
  {
    && step.Receive? && step.arrival.src == peer
    && step.arrival.packet.ack && Compare(t.begin, step.arrival.packet.ackNo) < 0
  }

  /** The endpoint whose bytes a side carries. */
  function SenderOf(side: Side, c: Endpoint, other: Endpoint): Endpoint
  {
    if side == Up then c else other
  }

  lemma SourceOf(side: Side, c: Endpoint, other: Endpoint, steps: seq<ConnStep>, i: int, ev: Event)
    requires OneFlow(steps, c, other) && Gives(side, c, steps, i, ev)
    ensures ev.Arrive? ==> steps[i].arrival.src == SenderOf(side, c, other)
    ensures ev.Ack? ==> steps[i].arrival.src == SenderOf(side, other, c)
  {
    assert steps[i] in steps;
    var a := steps[i].arrival;
    KeyExactly(a.src, a.dst, c, other);
  }

  /**
   Over every run of a connection whose packets are one flow: on either side, what its
   handler has consumed and may still read is a sequence of segments each of which was sent
   by that side's endpoint and let out by a later acknowledgement from the other endpoint.
   */
  lemma BytesAreTheSenders(steps: seq<ConnStep>, c: Endpoint, other: Endpoint, side: Side)
    returns (sent: seq<Segment>)
    requires ConnLegal(CONNECTION_START, steps)
    requires ClientIs(None, steps, c) && OneFlow(steps, c, other)
    ensures var end := ConnExecAll(CONNECTION_START, steps).On(side);
            end.consumed + end.net.Logical() == Payloads(sent)
    ensures forall t <- sent :: Provenanced(steps, SenderOf(side, c, other), SenderOf(side, other, c), t)
  {
    RunProjects(CONNECTION_START, steps, c, side);
    var mine := ProjectAll(side, c, steps);
    ConsumedIsReleased(mine);
    sent := Run(EMPTY, Seen(mine)).sent;
    forall t <- sent
      ensures Provenanced(steps, SenderOf(side, c, other), SenderOf(side, other, c), t)
    {
      ReleasedIsProvenanced(steps, c, other, side, t);
    }
  }

  lemma ReleasedIsProvenanced(steps: seq<ConnStep>, c: Endpoint, other: Endpoint, side: Side, t: Segment)
    requires OneFlow(steps, c, other)
    requires t in Run(EMPTY, Seen(ProjectAll(side, c, steps))).sent
    ensures Provenanced(steps, SenderOf(side, c, other), SenderOf(side, other, c), t)
  {
    var evs := Seen(ProjectAll(side, c, steps));
    var k, l := ReleasedFromStart(evs, t);
    var i, j := EventIndices(side, c, steps, evs, k, l);
    SourceOf(side, c, other, steps, i, evs[k]);
    SourceOf(side, c, other, steps, j, evs[l]);
    assert Carried(steps[i], SenderOf(side, c, other), t);
    assert AckedBy(steps[j], SenderOf(side, other, c), t);
  }

  /** What each endpoint sends: up is the client's byte stream, down the other one's. */
  ghost predicate Carries(up: Stream, down: Stream, c: Endpoint, step: ConnStep)
    requires up.Valid() && down.Valid()
  {
    step.Receive? ==>
      var mine, theirs := if step.arrival.src == c then up else down, if step.arrival.src == c then down else up;
      && mine.Cuts(step.arrival.packet.Segment())
      && (step.arrival.packet.ack ==> theirs.epoch.Has(step.arrival.packet.ackNo))
  }

  lemma GivenEvent(up: Stream, down: Stream, side: Side, c: Endpoint, steps: seq<ConnStep>, i: int, ev: Event)
    requires up.Valid() && down.Valid() && Gives(side, c, steps, i, ev) && Carries(up, down, c, steps[i])
    ensures EventOf(if side == Up then up else down, ev)
  {
    hide Stream.Cuts;
  }

  /**
   Over every run of a connection whose endpoints send two byte streams: on either side the handler
   consumes bytes of that side's sender at strictly increasing positions of its stream, and at
   consecutive ones if no acknowledgement found a hole.
   */
  lemma SidesInOrder(up: Stream, down: Stream, steps: seq<ConnStep>, c: Endpoint, side: Side) returns (p: seq<int>)
    requires up.Valid() && down.Valid() && ConnLegal(CONNECTION_START, steps) && ClientIs(None, steps, c)
    requires forall st <- steps :: Carries(up, down, c, st)
    ensures Labels(if side == Up then up else down, p, ConnExecAll(CONNECTION_START, steps).On(side).consumed)
    ensures HoleFreeRun(EMPTY, Seen(ProjectAll(side, c, steps))) && p != [] ==> ConsecutiveFrom(p, p[0])
  {
    hide Labels, HoleFreeRun, ConsecutiveFrom, ConnExecAll, ExecAll, Seen, ProjectAll, Carries, Gives, EventOf, ConnLegal,
         Legal, ClientIs;
    RunProjects(CONNECTION_START, steps, c, side);
    var st, evs := if side == Up then up else down, Seen(ProjectAll(side, c, steps));
    forall k | 0 <= k < |evs|
      ensures EventOf(st, evs[k])
    {
      var i := EventIndex(side, c, steps, evs, k);
      GivesIndex(side, c, steps, i, evs[k]);
      GivenEvent(up, down, side, c, steps, i, evs[k]);
    }
    p := ConsumedInOrder(st, ProjectAll(side, c, steps));
  }

  lemma GivesIndex(side: Side, c: Endpoint, steps: seq<ConnStep>, i: int, ev: Event)
    requires Gives(side, c, steps, i, ev)
    ensures 0 <= i < |steps| && steps[i] in steps
  {
  }
}
