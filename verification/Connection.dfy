/** A TCP connection routes the packets of a flow to its two streams (tcpport/assembler.go). */
module Connection {
  import opened Wrappers
  import opened Bytes
  import opened TcpSeq
  import opened SegmentWindow
  import opened NetStream
  import opened Endpoints

  /** The fields of a captured TCP packet that the assembler looks at. */
  datatype TcpPacket = TcpPacket(
    seqNo: U32, ackNo: U32, payload: seq<Byte>, syn: bool, ack: bool, fin: bool, rst: bool)
  {
    function Segment(): Segment
    {
      SegmentWindow.Segment(seqNo, payload)
    }
  }

  /** A packet with the endpoints of its flow. */
  datatype Arrival = Arrival(src: Endpoint, dst: Endpoint, packet: TcpPacket)

  /** client is set by the first packet. */
  datatype ConnState = ConnState(up: NetState, down: NetState, client: Option<Endpoint>) {

    /** No send on a closed channel can happen. */
    ghost predicate Open()
    {
      !up.finished && !down.finished
    }

    function ClientFor(src: Endpoint): Endpoint
    {
      if client.Some? then client.value else src
    }

    /** What the sending side's stream does with a packet. */
    static function Sent(s: NetState, p: TcpPacket): NetState
    {
      var t := s.Append(p.Segment());
      if p.fin || p.rst then t.(closed := true) else t
    }

    /** What the opposite stream does with it. */
    static function Acked(s: NetState, p: TcpPacket): NetState
    {
      if p.ack then s.Confirm(p.ackNo) else s
    }

    function Receive(src: Endpoint, p: TcpPacket): ConnState
    {
      if ClientFor(src) == src
      then ConnState(Sent(up, p), Acked(down, p), Some(ClientFor(src)))
      else ConnState(Acked(up, p), Sent(down, p), Some(ClientFor(src)))
    }

    predicate Closed()
    {
      up.closed && down.closed
    }

    /** Whether both directions have ended after this packet. */
    predicate EndsWith(src: Endpoint, p: TcpPacket)
    {
      Receive(src, p).Closed()
    }

    /** What the assembler makes of a connection with one packet. */
    function Taken(src: Endpoint, p: TcpPacket): ConnState
    {
      if EndsWith(src, p) then Receive(src, p).Finish() else Receive(src, p)
    }

    function Finish(): ConnState
    {
      ConnState(up.(finished := true), down.(finished := true), client)
    }

    function Flush(): ConnState
    {
      ConnState(up.(closed := true), down.(closed := true), client).Finish()
    }
  }

  // When a connection has ended, by the packets alone.

  /** A FIN or RST came from the first packet's sender, or from anyone else. */
  ghost predicate EndedBy(received: seq<Arrival>, first: bool) {
    exists a <- received :: (a.packet.fin || a.packet.rst) && (a.src == received[0].src <==> first)
  }

  /** Either side has sent a FIN or RST. */
  ghost predicate BothEnded(received: seq<Arrival>) {
    EndedBy(received, true) && EndedBy(received, false)
  }

  lemma EndedNext(received: seq<Arrival>, a: Arrival)
    ensures var all := received + [a];
            var client := if received == [] then a.src else received[0].src;
            && all[0].src == client
            && (EndedBy(all, true) <==> EndedBy(received, true) || ((a.packet.fin || a.packet.rst) && a.src == client))
            && (EndedBy(all, false) <==>
                EndedBy(received, false) || ((a.packet.fin || a.packet.rst) && a.src != client))
  {
    var all := received + [a];
    assert all[|received|] == a && forall i :: 0 <= i < |received| ==> all[i] == received[i];
    forall b <- received
      ensures b in all
    {
    }
  }

  /** What a handler does to a stream: read at most n bytes, put bytes back, or leave. */
  datatype HandlerAct = ReadUpTo(n: nat) | PutBack(data: seq<Byte>) | Leave

  const NEW_CONNECTION: ConnState := ConnState(NEW_STREAM, NEW_STREAM, None)

  class TCPConnection {
    const up: NetStream
    const down: NetStream
    const key: seq<Byte>
    var clientID: Endpoint
    var isRPC: bool
    var lastTimestamp: int
    /** The packets received so far. */
    ghost var received: seq<Arrival>

    /** The objects of this connection. */
    ghost var Repr: set<object>
    /** Whether the assembler still feeds the connection. */
    ghost var live: bool

    /** The invariant without the phase. */
    ghost predicate Structured()
      reads this, Repr
      ensures Structured() ==> this in Repr
    {
      && {this, up, down, up.window, down.window, up.c, down.c} <= Repr
      && {up.window.buffer, down.window.buffer} <= Repr
      && up != down && up.window != down.window && up.c != down.c
      && up.window.buffer != down.window.buffer
      && up.Valid() && down.Valid()
      && (forall a <- received :: Key(a.src, a.dst) == key)
    }

    /** The client is the sender of the first packet, and each direction is closed once its sender ended it. */
    ghost predicate Tracks()
      reads this, up, down
    {
      && (isRPC <==> received != []) && (isRPC ==> clientID == received[0].src)
      && (up.closed <==> EndedBy(received, true)) && (down.closed <==> EndedBy(received, false))
    }

    /** Live: the channels are open and some side has not ended. Otherwise they are closed. */
    ghost predicate Valid()
      reads this, Repr
      ensures Valid() ==> this in Repr
    {
      Structured() && if live then Open() && Tracks() && !BothEnded(received) else Retired()
    }

    /** Both channels open. */
    ghost predicate Open()
      reads up.c, down.c
    {
      !up.c.closed && !down.c.closed
    }

    ghost function Value(): ConnState
      reads this, up, down, up.window, down.window, up.c, down.c
    {
      ConnState(up.Value(), down.Value(), if isRPC then Some(clientID) else None)
    }

    /** Retired: both channels closed. */
    ghost predicate Retired()
      reads up.c, down.c
    {
      up.c.closed && down.c.closed
    }

    constructor (key: seq<Byte>)
      ensures Valid() && fresh(Repr) && Value() == NEW_CONNECTION && live
      ensures this.key == key && received == []
    {
      up := new NetStream();
      down := new NetStream();
      this.key := key;
      isRPC := false;
      received := [];
      live := true;
      new;
      Repr := {this, up, down, up.window, down.window, up.c, down.c, up.window.buffer, down.window.buffer};
    }

    /**
     Receives a packet and, if both directions have now ended, closes the channels. (The
     assembler takes the connection off its register between the two; they share no object.)
     */
    method Take(src: Endpoint, dst: Endpoint, p: TcpPacket, timestamp: int) returns (ended: bool)
      requires Valid() && live && Key(src, dst) == key
      modifies Repr
      ensures Valid() && fresh(Repr - old(Repr)) && live == !ended
      ensures ended == BothEnded(received)
      ensures ended == old(Value()).EndsWith(src, p) && Value() == old(Value()).Taken(src, p)
      ensures lastTimestamp == timestamp && received == old(received) + [Arrival(src, dst, p)]
    {
      hide EndedBy, ConnState.Receive, Key;
      OnReceive(src, dst, p, timestamp);
      ended := up.closed && down.closed;
      if ended {
        Finish();
      }
    }

    /** Records the packet; the first one fixes the client. */
    method Note(src: Endpoint, dst: Endpoint, p: TcpPacket, timestamp: int)
      requires Structured() && Key(src, dst) == key
      modifies `lastTimestamp, `received, `clientID, `isRPC
      ensures Structured()
      ensures Value() == old(Value()).(client := Some(old(Value()).ClientFor(src)))
      ensures lastTimestamp == timestamp && received == old(received) + [Arrival(src, dst, p)]
    {
      lastTimestamp := timestamp;
      received := received + [Arrival(src, dst, p)];
      if !isRPC {
        clientID := src;
        isRPC := true;
      }
    }

    method OnReceive(src: Endpoint, dst: Endpoint, p: TcpPacket, timestamp: int)
      requires Valid() && live && Key(src, dst) == key
      modifies Repr
      ensures Structured() && Open() && Tracks() && fresh(Repr - old(Repr)) && live
      ensures Value() == old(Value()).Receive(src, p)
      ensures lastTimestamp == timestamp && received == old(received) + [Arrival(src, dst, p)]
    {
      hide NetStream.Valid, NetStream.Value, ConnState.Sent, ConnState.Acked, Key, EndedBy, BothEnded;
      EndedNext(received, Arrival(src, dst, p));
      Note(src, dst, p, timestamp);
      if clientID == src {
        Deliver(up, down, p);
      } else {
        Deliver(down, up, p);
      }
      Repr := Repr + {up.window.buffer, down.window.buffer};
    }

    /** Gives a packet to the sending side's stream and its acknowledgement to the other. */
    static method Deliver(sendStream: NetStream, confirmStream: NetStream, p: TcpPacket)
      requires sendStream != confirmStream && sendStream.window != confirmStream.window
      requires sendStream.c != confirmStream.c
      requires sendStream.window.buffer != confirmStream.window.buffer
      requires sendStream.Valid() && confirmStream.Valid() && !confirmStream.c.closed
      modifies sendStream`closed, sendStream.window, sendStream.window.buffer
      modifies confirmStream.window, confirmStream.window.buffer, confirmStream.c`queue
      ensures sendStream.Valid() && confirmStream.Valid()
      ensures sendStream.window.buffer == old(sendStream.window.buffer) || fresh(sendStream.window.buffer)
      ensures confirmStream.window.buffer == old(confirmStream.window.buffer)
      ensures sendStream.Value() == ConnState.Sent(old(sendStream.Value()), p)
      ensures confirmStream.Value() == ConnState.Acked(old(confirmStream.Value()), p)
      ensures sendStream.closed == (old(sendStream.closed) || p.fin || p.rst)
      ensures confirmStream.closed == old(confirmStream.closed)
    {
      sendStream.AppendPacket(p.Segment());
      if p.ack {
        confirmStream.ConfirmPacket(p.ackNo);
      }
      if p.fin || p.rst {
        sendStream.closed := true;
      }
    }

    method Finish()
      requires Structured() && Open()
      modifies `live, up.c, down.c
      ensures Valid() && !live
      ensures Value() == old(Value()).Finish()
    {
      live := false;
      up.Finish();
      down.Finish();
    }

    /** A step of the handler on one of the streams; a read that would block is not taken. */
    method HandlerStep(onUp: bool, act: HandlerAct)
      requires Valid()
      modifies up`remain, up`ignore, up.c`queue, down`remain, down`ignore, down.c`queue
      ensures Valid()
    {
      if onUp {
        Act(up, act);
      } else {
        Act(down, act);
      }
    }

    static method Act(s: NetStream, act: HandlerAct)
      modifies s`remain, s`ignore, s.c`queue
    {
      match act
      case ReadUpTo(n) =>
        if s.c.closed || |s.remain| > 0 || (|s.c.queue| > 0 && |s.c.queue[0].payload| > 0) {
          var buf := new Byte[n];
          var got, eof := s.Read(buf);
        }
      case PutBack(data) => s.Prepend(data);
      case Leave => s.Close();
    }

    method FlushOlderThan()
      requires Valid() && live
      modifies `live, up, down, up.c, down.c
      ensures Valid() && !live && up.closed && down.closed
      ensures Value() == old(Value()).Flush()
    {
      up.closed := true;
      down.closed := true;
      Finish();
    }
  }

  /** Ends a live connection: flushed when it is stale, finished at the end of the capture. */
  method End(c: TCPConnection, stale: bool)
    requires c.Valid() && c.live
    modifies c.Repr
    ensures c.Valid() && !c.live && c.Repr == old(c.Repr)
    ensures c.Value() == if stale then old(c.Value()).Flush() else old(c.Value()).Finish()
  {
    if stale {
      c.FlushOlderThan();
    } else {
      c.Finish();
    }
  }

  /** A connection none of whose objects changed reads the same. */
  twostate lemma SameValue(d: TCPConnection)
    requires old(d.Valid()) && unchanged(old(d.Repr))
    ensures d.Value() == old(d.Value())
  {
  }

  /**
   Protocol detection on a connection (main.go): peek at the client's stream, hand the
   connection to the first detector that accepts what was seen, or close both streams.
   */
  method Detect(conn: TCPConnection, detectors: seq<seq<Byte> -> bool>)
    returns (chosen: Option<nat>, seen: seq<Byte>)
    requires conn.Valid() && conn.up.Value().Ready()
    modifies conn.up, conn.down, conn.up.c
    ensures conn.Valid() && conn.live == old(conn.live)
    ensures conn.up.Value() ==
              old(conn.up.Value()).(remain := conn.up.remain, queue := conn.up.c.queue, ignore := conn.up.ignore)
    ensures conn.up.Value().Logical() == old(conn.up.Value()).Logical()
    ensures seen <= conn.up.Value().Logical() && |seen| <= 24
    ensures seen == [] <==> conn.up.Value().Logical() == []
    ensures IsFront(old(conn.up.Value()), 24, seen)
    ensures match chosen
            case Some(i) =>
              && i < |detectors| && seen != [] && detectors[i](seen)
              && (forall j :: 0 <= j < i ==> !detectors[j](seen))
              && conn.up.ignore == old(conn.up.ignore) && conn.down.Value() == old(conn.down.Value())
            case None =>
              && (seen == [] || forall d <- detectors :: !d(seen))
              && conn.up.ignore && conn.down.Value() == old(conn.down.Value()).(ignore := true)
  {
    var eof;
    seen, eof := Peek(conn.up);
    var i := 0;
    while i < |detectors|
      invariant i <= |detectors|
      invariant forall j :: 0 <= j < i ==> seen == [] || !detectors[j](seen)
    {
      if |seen| > 0 && detectors[i](seen) {
        return Some(i), seen;
      }
      i := i + 1;
    }
    conn.up.Close();
    conn.down.Close();
    chosen := None;
  }
}
