/**
 The assembler creates a connection per flow and retires it (tcpport/assembler.go). Channels
 panic when they are closed twice or sent to after the close, so every call below also proves
 that neither happens.
 */
module Assembler {
  import opened Wrappers
  import opened Bytes
  import opened Endpoints
  import opened Connection

  /** What is left of a register without some of its connections. */
  ghost function Without(dict: map<seq<Byte>, TCPConnection>, gone: seq<TCPConnection>):
    map<seq<Byte>, TCPConnection>
  {
    map k | k in dict && dict[k] !in gone :: dict[k]
  }

  lemma WithoutNone(dict: map<seq<Byte>, TCPConnection>, gone: seq<TCPConnection>)
    requires |gone| == 0
    ensures Without(dict, gone) == dict
  {
  }

  lemma WithoutKeeps(dict: map<seq<Byte>, TCPConnection>, gone: seq<TCPConnection>, c: TCPConnection)
    requires c.key in dict && dict[c.key] == c && c !in gone
    ensures c.key in Without(dict, gone) && Without(dict, gone)[c.key] == c
  {
  }

  lemma WithoutNext(dict: map<seq<Byte>, TCPConnection>, gone: seq<TCPConnection>, c: TCPConnection)
    requires forall k <- dict :: dict[k].key == k
    requires c.key in dict && dict[c.key] == c
    ensures Without(dict, gone + [c]) == Without(dict, gone) - {c.key}
  {
  }

  ghost function EndOf(v: ConnState, stale: bool): ConnState {
    if stale then v.Flush() else v.Finish()
  }

  lemma Parts(c: TCPConnection)
    requires c.Valid()
    ensures {c, c.up, c.down, c.up.c, c.down.c} <= c.Repr
  {
  }

  class TCPAssembler {
    var connectionDict: map<seq<Byte>, TCPConnection>
    const filterIP: seq<Byte>
    const filterPort: nat
    const detector: Option<seq<Byte> -> bool>
    /** Every connection ever handed to a handler; the handlers keep them. */
    var created: set<TCPConnection>

    /** Which connection each of the connections' objects belongs to; they share none. */
    ghost var owner: map<object, TCPConnection>

    ghost predicate IsRegistered(c: TCPConnection)
      reads this
    {
      c.key in connectionDict && connectionDict[c.key] == c
    }

    ghost predicate Owns(c: TCPConnection)
      reads this, c
    {
      forall o <- c.Repr :: o in owner && owner[o] == c
    }

    /** A connection is live exactly while it is registered, and retired otherwise. */
    ghost predicate Sound(c: TCPConnection)
      reads this, c, c.Repr
    {
      c in c.Repr && Owns(c) && c.Valid() && (c.live <==> IsRegistered(c))
    }

    ghost predicate Valid()
      reads this, owner.Keys
    {
      && this !in owner && created <= owner.Keys
      && (forall k <- connectionDict :: connectionDict[k] in created && connectionDict[k].key == k)
      && (forall c <- created :: Owns(c) && Sound(c))
    }

    constructor (filterIP: seq<Byte>, filterPort: nat, detector: Option<seq<Byte> -> bool>)
      ensures Valid() && owner == map[] && created == {} && connectionDict == map[]
      ensures this.filterIP == filterIP && this.filterPort == filterPort && this.detector == detector
    {
      this.filterIP, this.filterPort, this.detector := filterIP, filterPort, detector;
      connectionDict, created, owner := map[], {}, map[];
    }

    /** Whether a packet may open a connection: a SYN without ACK, or a detected protocol. */
    predicate Opens(p: TcpPacket)
    {
      (p.syn && !p.ack) || (detector.Some? && detector.value(p.payload))
    }

    /** The ownership record once the objects of c are known to belong to c. */
    static ghost function Adopted(owner: map<object, TCPConnection>, c: TCPConnection): map<object, TCPConnection>
      reads c
    {
      map o <- owner.Keys + c.Repr :: if o in c.Repr then c else owner[o]
    }

    /** Whatever c does to itself and its entry, the other connections stay as they are. */
    twostate lemma KeepsOthers(c: TCPConnection, new touched: set<object>)
      requires old(Valid()) && created == old(created) + {c}
      requires forall o <- touched :: o in old(owner) ==> old(owner)[o] == c
      requires forall o <- old(owner.Keys) :: o !in touched ==> unchanged(o)
      requires forall o <- c.Repr :: o != this && (o in old(owner) ==> old(owner)[o] == c)
      requires owner == Adopted(old(owner), c)
      requires c.key in old(connectionDict) ==> old(connectionDict)[c.key] == c
      requires connectionDict == if c.live then old(connectionDict)[c.key := c] else old(connectionDict) - {c.key}
      requires c in c.Repr && c.Valid()
      ensures Valid() && forall d <- old(created) :: d != c ==> unchanged(old(d.Repr))
    {
      hide TCPConnection.Valid;
      forall d <- old(created) | d != c
        ensures Sound(d) && unchanged(old(d.Repr))
      {
        assert old(Sound(d));
        assert forall o <- old(d.Repr) :: old(owner)[o] == d;
      }
    }

    /** Enters a new connection. */
    method Register(c: TCPConnection)
      requires Valid() && c.key !in connectionDict
      requires c.Valid() && c.live && this !in c.Repr && c.Repr !! owner.Keys
      modifies this
      ensures Valid() && owner.Keys == old(owner.Keys) + c.Repr
      ensures connectionDict == old(connectionDict)[c.key := c]
      ensures created == old(created) + {c}
    {
      hide TCPConnection.Valid;
      connectionDict := connectionDict[c.key := c];
      created := created + {c};
      owner := Adopted(owner, c);
      KeepsOthers(c, c.Repr);
    }

    /** The handler of a new connection runs concurrently; its steps are those of StreamRuns. */
    method RetrieveConnection(key: seq<Byte>, init: bool) returns (conn: TCPConnection?)
      requires Valid()
      modifies this
      ensures Valid() && fresh(owner.Keys - old(owner.Keys))
      ensures if key in old(connectionDict) || !init then
                && connectionDict == old(connectionDict) && created == old(created) && owner == old(owner)
                && conn == (if key in old(connectionDict) then old(connectionDict)[key] else null)
              else
                && conn != null && fresh(conn) && fresh(conn.Repr)
                && conn.key == key && conn.Value() == NEW_CONNECTION && conn.received == []
                && connectionDict == old(connectionDict)[key := conn]
                && created == old(created) + {conn}
      ensures conn != null ==> conn.key == key && conn in created && conn.Repr <= owner.Keys
      ensures forall c <- old(created) :: unchanged(old(c.Repr))
    {
      hide *;
      AllFacts(this);
      conn := if key in connectionDict then connectionDict[key] else null;
      if conn == null && init {
        var c := new TCPConnection(key);
        Register(c);
        conn := c;
      }
    }

    /** Brings the records up to date after a step of c. */
    method Settle(c: TCPConnection, ended: bool)
      requires this != c as object && c.Valid() && this !in c.Repr
      modifies `owner, `connectionDict
      ensures c.Valid() && c.Value() == old(c.Value())
      ensures owner == Adopted(old(owner), c)
      ensures connectionDict == if ended then old(connectionDict) - {c.key} else old(connectionDict)
    {
      if ended {
        connectionDict := connectionDict - {c.key};
      }
      owner := Adopted(owner, c);
    }

    /** Delivers a packet and retires the connection if both directions have now ended. */
    method Receive(c: TCPConnection, src: Endpoint, dst: Endpoint, p: TcpPacket, timestamp: int)
      requires Valid() && IsRegistered(c) && Key(src, dst) == c.key
      modifies `owner, `connectionDict, c.Repr
      ensures Valid() && fresh(owner.Keys - old(owner.Keys))
      ensures forall d <- created :: d != c ==> unchanged(old(d.Repr))
      ensures c.Value() == old(c.Value()).Taken(src, p) && c.received == old(c.received) + [Arrival(src, dst, p)]
      ensures connectionDict == if BothEnded(c.received) then old(connectionDict) - {c.key} else old(connectionDict)
    {
      hide TCPConnection.Valid, TCPConnection.Value, ConnState.Taken, ConnState.EndsWith, BothEnded;
      assert Sound(c);
      var ended := c.Take(src, dst, p, timestamp);
      Settle(c, ended);
      KeepsOthers(c, old(c.Repr));
    }

    /** Takes a packet; conn is the connection that received it, if any did. */
    method Assemble(src: Endpoint, dst: Endpoint, p: TcpPacket, timestamp: int)
      returns (ghost conn: TCPConnection?)
      requires Valid()
      modifies this, owner.Keys
      ensures Valid() && fresh(owner.Keys - old(owner.Keys))
      ensures conn != null <==>
                && (filterIP != [] ==> src.ip == filterIP || dst.ip == filterIP)
                && (filterPort != 0 ==> src.port == filterPort || dst.port == filterPort)
                && (|| Key(src, dst) in old(connectionDict) || (p.syn && !p.ack)
                    || (detector.Some? && detector.value(p.payload)))
      ensures forall c <- old(created) :: c != conn ==> unchanged(old(c.Repr))
      ensures conn == null ==> connectionDict == old(connectionDict) && created == old(created)
      ensures conn != null ==>
                var key := Key(src, dst);
                && created == old(created) + {conn} && conn.key == key
                && if key in old(connectionDict) then conn == old(connectionDict)[key] else fresh(conn)
      ensures conn != null ==>
                var key := Key(src, dst);
                var before := if key in old(connectionDict) then old(connectionDict[key].Value()) else NEW_CONNECTION;
                var heard := if key in old(connectionDict) then old(connectionDict[key].received) else [];
                var dict := old(connectionDict)[key := conn];
                && conn.Value() == before.Taken(src, p) && conn.received == heard + [Arrival(src, dst, p)]
                && connectionDict == if BothEnded(conn.received) then dict - {key} else dict
    {
      hide TCPConnection.Valid, TCPConnection.Value, ConnState.Taken, ConnState.EndsWith, BothEnded;
      hide Valid, Sound, Owns, Key;
      AllFacts(this);
      conn := null;
      if filterIP != [] && src.ip != filterIP && dst.ip != filterIP {
        return;
      }
      if filterPort != 0 && src.port != filterPort && dst.port != filterPort {
        return;
      }
      var key := Key(src, dst);
      var c := RetrieveConnection(key, Opens(p));
      if c == null {
        return;
      }
      conn := c;
      assert connectionDict == old(connectionDict)[key := c];
      Receive(c, src, dst, p, timestamp);
    }

    /** A step of the handler of c, live or not, concerns no other connection and not the register. */
    method HandlerStep(c: TCPConnection, onUp: bool, act: HandlerAct)
      requires Valid() && c in created
      modifies c.Repr
      ensures Valid() && unchanged(c) && forall d <- created :: d != c ==> unchanged(old(d.Repr))
    {
      hide TCPConnection.Valid;
      assert Sound(c);
      Parts(c);
      c.HandlerStep(onUp, act);
      KeepsAll(c);
    }

    twostate lemma KeepsAll(c: TCPConnection)
      requires old(Valid()) && old(c in created) && unchanged(this) && unchanged(c)
      requires forall o <- owner.Keys :: o !in c.Repr ==> unchanged(o)
      requires c.Valid()
      ensures Valid() && forall d <- created :: d != c ==> unchanged(old(d.Repr))
    {
      hide TCPConnection.Valid;
      forall d <- created
        ensures Sound(d) && (d != c ==> unchanged(old(d.Repr)))
      {
        assert old(Sound(d)) && old(Sound(c));
      }
    }

    /** Closes a registered connection for good, as stale or at the end of the capture. */
    method Drop(c: TCPConnection, stale: bool)
      requires Valid() && IsRegistered(c)
      modifies `owner, `connectionDict, c.Repr
      ensures Valid() && owner.Keys == old(owner.Keys)
      ensures forall d <- created :: d != c ==> unchanged(old(d.Repr))
      ensures !c.live && c.Value() == (if stale then old(c.Value()).Flush() else old(c.Value()).Finish())
      ensures connectionDict == old(connectionDict) - {c.key}
    {
      hide TCPConnection.Valid, TCPConnection.Value, ConnState.Flush, ConnState.Finish;
      assert Sound(c);
      End(c, stale);
      Settle(c, true);
      KeepsOthers(c, old(c.Repr));
    }

    /** Whether a connection is registered and was last heard of before t; None asks for all. */
    ghost predicate Selected(c: TCPConnection, t: Option<int>)
      reads this, c
    {
      IsRegistered(c) && (t.Some? ==> c.lastTimestamp < t.value)
    }

    /** The selected connections, each once. */
    method Select(t: Option<int>) returns (conns: seq<TCPConnection>)
      requires forall k <- connectionDict :: connectionDict[k].key == k
      ensures forall i, j :: 0 <= i < j < |conns| ==> conns[i] != conns[j]
      ensures forall c :: c in conns <==> Selected(c, t)
    {
      conns := [];
      var keys := connectionDict.Keys;
      while keys != {}
        invariant keys <= connectionDict.Keys
        invariant forall i, j :: 0 <= i < j < |conns| ==> conns[i] != conns[j]
        invariant forall c :: c in conns <==> Selected(c, t) && c.key !in keys
        decreases keys
      {
        var k :| k in keys;
        var c := connectionDict[k];
        assert c !in conns;
        keys := keys - {k};
        if t.None? || c.lastTimestamp < t.value {
          conns := conns + [c];
        }
      }
    }

    /** Drops one more connection; dict is the register as it was before the ones dropped already. */
    method DropNext(ghost dict: map<seq<Byte>, TCPConnection>, ghost done: seq<TCPConnection>, c: TCPConnection,
                    stale: bool)
      requires Valid() && connectionDict == Without(dict, done) && forall k <- dict :: dict[k].key == k
      requires c in created && c !in done && c.key in dict && dict[c.key] == c
      requires forall d <- done :: d in created && !d.live
      modifies `owner, `connectionDict, c.Repr
      ensures Valid() && owner.Keys == old(owner.Keys) && created == old(created)
      ensures connectionDict == Without(dict, done + [c])
      ensures forall d <- created :: d != c ==> unchanged(old(d.Repr))
      ensures forall d <- done :: !d.live && d.Value() == old(d.Value())
      ensures !c.live && c.Value() == EndOf(old(c.Value()), stale)
    {
      hide TCPConnection.Valid, TCPConnection.Value, ConnState.Flush, ConnState.Finish, Without;
      Facts(this, c);
      WithoutKeeps(dict, done, c);
      Drop(c, stale);
      WithoutNext(dict, done, c);
      forall d <- done
        ensures !d.live && d.Value() == old(d.Value())
      {
        assert old(Sound(d));
        SameValue(d);
      }
    }

    /** Drops several registered connections, one after the other. */
    method DropAll(conns: seq<TCPConnection>, stale: bool)
      requires Valid() && forall c <- conns :: c in created && IsRegistered(c)
      requires forall i, j :: 0 <= i < j < |conns| ==> conns[i] != conns[j]
      modifies this, owner.Keys
      ensures Valid() && owner.Keys == old(owner.Keys) && created == old(created)
      ensures forall c <- conns :: !c.live && c.Value() == EndOf(old(c.Value()), stale)
      ensures forall c <- created :: c !in conns ==> unchanged(old(c.Repr))
      ensures connectionDict == Without(old(connectionDict), conns)
    {
      hide *;
      ghost var dict, done := connectionDict, conns[..0];
      AllFacts(this);
      Registered(this, conns);
      WithoutNone(dict, done);
      for i := 0 to |conns|
        invariant done == conns[..i]
        invariant Valid() && owner.Keys == old(owner.Keys) && created == old(created)
        invariant forall k :: 0 <= k < i ==> !conns[k].live && conns[k].Value() == EndOf(old(conns[k].Value()), stale)
        invariant forall c <- created :: c !in done ==> unchanged(old(c.Repr))
        invariant connectionDict == Without(dict, done)
      {
        var c := conns[i];
        NextUndone(conns, i);
        SameValue(c);
        DropNext(dict, done, c, stale);
        done := done + [c];
      }
      assert done == conns;
    }

    /** Drops the connections not heard of since t and leaves the others alone. */
    method FlushOlderThan(t: int)
      requires Valid()
      modifies this, owner.Keys
      ensures Valid() && owner.Keys == old(owner.Keys) && created == old(created)
      ensures forall c <- created ::
                if old(Selected(c, Some(t))) then !c.live && c.Value() == old(c.Value()).Flush()
                else unchanged(old(c.Repr))
      ensures connectionDict ==
                map k | k in old(connectionDict) && old(connectionDict[k].lastTimestamp) >= t :: old(connectionDict)[k]
    {
      hide TCPConnection.Valid, TCPConnection.Value, ConnState.Flush;
      var conns := Select(Some(t));
      DropAll(conns, true);
    }

    /** The end of the capture: every connection still registered is finished. */
    method FinishAll()
      requires Valid()
      modifies this, owner.Keys
      ensures Valid() && owner.Keys == old(owner.Keys) && created == old(created)
      ensures forall c <- created ::
                if old(IsRegistered(c)) then !c.live && c.Value() == old(c.Value()).Finish()
                else unchanged(old(c.Repr))
      ensures connectionDict == map[]
    {
      hide TCPConnection.Valid, TCPConnection.Value, ConnState.Finish;
      var conns := Select(None);
      DropAll(conns, false);
    }
  }

  /** What is known of a connection that was ever created. */
  lemma Facts(a: TCPAssembler, c: TCPConnection)
    requires a.Valid() && c in a.created
    ensures c.Valid() && c in c.Repr && c.Repr <= a.owner.Keys && a !in c.Repr
  {
    hide TCPConnection.Valid;
    assert a.Sound(c);
  }

  lemma AllFacts(a: TCPAssembler)
    requires a.Valid()
    ensures forall c <- a.created :: c.Valid() && c in c.Repr && c.Repr <= a.owner.Keys && a !in c.Repr
    ensures forall k <- a.connectionDict :: a.connectionDict[k] in a.created && a.connectionDict[k].key == k
    ensures a !in a.owner
  {
    hide TCPConnection.Valid;
    forall c <- a.created
      ensures c.Valid() && c in c.Repr && c.Repr <= a.owner.Keys && a !in c.Repr
    {
      Facts(a, c);
    }
  }

  lemma Registered(a: TCPAssembler, conns: seq<TCPConnection>)
    requires forall c <- conns :: a.IsRegistered(c)
    ensures forall c <- conns :: c.key in a.connectionDict && a.connectionDict[c.key] == c
  {
  }

  lemma NextUndone(conns: seq<TCPConnection>, i: nat)
    requires i < |conns| && forall k, l :: 0 <= k < l < |conns| ==> conns[k] != conns[l]
    ensures conns[i] in conns && conns[i] !in conns[..i] && conns[..i + 1] == conns[..i] + [conns[i]]
    ensures forall c <- conns[..i] :: c in conns
  {
  }

  datatype CaptureEvent =
    | Packet(src: Endpoint, dst: Endpoint, packet: TcpPacket, timestamp: int)
    | Tick(before: int)
    | Handler(onUp: bool, act: HandlerAct)

  /**
   A whole capture (main.go): packets, flush ticks and steps of any connection's handler in any
   order, then the end. Every connection ever created ends with both its channels closed; that no
   channel is closed twice or sent to after the close is what the calls along the way require.
   */
  method Capture(a: TCPAssembler, events: seq<CaptureEvent>)
    requires a.Valid()
    modifies a, a.owner.Keys
    ensures a.Valid() && a.connectionDict == map[] && old(a.created) <= a.created
    ensures forall c <- a.created :: c.Retired()
  {
    hide TCPConnection.Valid, TCPConnection.Value, ConnState.Finish, ConnState.Flush, ConnState.Receive;
    var i := 0;
    while i < |events|
      invariant a.Valid() && fresh(a.owner.Keys - old(a.owner.Keys))
      invariant old(a.created) <= a.created
    {
      match events[i] {
        case Packet(src, dst, p, ts) =>
          ghost var conn := a.Assemble(src, dst, p, ts);
        case Tick(t) =>
          a.FlushOlderThan(t);
        case Handler(onUp, act) =>
          if a.created != {} {
            var c :| c in a.created;
            assert a.Sound(c);
            a.HandlerStep(c, onUp, act);
          }
      }
      i := i + 1;
    }
    a.FinishAll();
    forall c <- a.created
      ensures c.Retired()
    {
      assert a.Sound(c);
      RetiredWhenDropped(c);
    }
  }

  lemma RetiredWhenDropped(c: TCPConnection)
    requires c.Valid() && !c.live
    ensures c.Retired()
  {
  }

  /**
   Each key has at most one live connection, and the packets a connection has received all
   join the same two endpoints.
   */
  lemma OneLivePerKey(a: TCPAssembler, c: TCPConnection, d: TCPConnection)
    requires a.Valid() && c in a.created && d in a.created
    requires c.live && d.live && c.key == d.key
    ensures c == d
  {
    assert a.Sound(c) && a.Sound(d);
  }

  lemma OneFlowPerConnection(a: TCPAssembler, c: TCPConnection, p: Arrival, q: Arrival)
    requires a.Valid() && c in a.created && p in c.received && q in c.received
    requires p.src.Valid() && p.dst.Valid() && q.src.Valid() && q.dst.Valid()
    ensures (p.src == q.src && p.dst == q.dst) || (p.src == q.dst && p.dst == q.src)
  {
    assert a.Sound(c);
    KeyExactly(p.src, p.dst, q.src, q.dst);
  }
}
