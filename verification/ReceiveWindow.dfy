/**
 The ring buffer behind the receive window (tcpport/assembler.go), updated in place, proved
 to do what Inserted and Confirmed say.
 */
module ReceiveWindow {
  import opened Wrappers
  import opened TcpSeq
  import opened SegmentWindow
  import opened Seqs

  /** A Go channel of segments: a queue that is closed once and not sent to afterwards. */
  class Channel {
    var queue: seq<Segment>
    var closed: bool

    constructor ()
      ensures queue == [] && !closed
    {
      queue := [];
      closed := false;
    }

    /** Sending on a closed channel panics, so callers owe that it is open. */
    method Send(s: Segment)
      requires !closed
      modifies `queue
      ensures queue == old(queue) + [s]
    {
      queue := queue + [s];
    }

    /** Receives the front segment; ok is false when the channel is closed and drained. */
    method Receive() returns (s: Segment, ok: bool)
      requires queue != [] || closed
      modifies `queue
      ensures ok <==> old(queue) != []
      ensures ok ==> s == old(queue)[0] && queue == old(queue)[1..]
      ensures !ok ==> queue == []
    {
      ok := queue != [];
      if ok {
        s, queue := queue[0], queue[1..];
      } else {
        s := Segment(0, []);
      }
    }

    /** Closing a closed channel panics. */
    method Close()
      requires !closed
      modifies `closed
      ensures closed
    {
      closed := true;
    }
  }

  lemma ModWrap(a: nat, n: nat)
    requires 0 < n && a < 2 * n
    ensures a % n == if a < n then a else a - n
  {
    if a >= n {
      assert a == n * 1 + (a - n);
    }
  }

  /** The buffer index of the k-th segment. */
  function Slot(start: nat, k: nat, n: nat): (r: nat)
    requires start < n && k <= n
    ensures r < n
    ensures r == if start + k < n then start + k else start + k - n
  {
    ModWrap(start + k, n);
    (start + k) % n
  }

  lemma InsertedAt(cs: seq<Segment>, s: Segment, i: nat)
    requires i <= |cs|
    ensures var r := InsertAt(cs, s, i);
            |r| == |cs| + 1 && forall k :: 0 <= k < |r| ==> r[k] == if k < i then cs[k] else if k == i then s else cs[k - 1]
  {
  }

  lemma SlotInjective(start: nat, k: nat, l: nat, n: nat)
    requires start < n && k < n && l < n && k != l
    ensures Slot(start, k, n) != Slot(start, l, n)
  {
  }

  class ReceiveWindow {
    var size: nat
    var start: nat
    var buffer: array<Option<Segment>>
    var expectBegin: U32
    /** The buffered segments in ring order. */
    ghost var contents: seq<Segment>

    ghost predicate Valid()
      reads this, buffer
    {
      && start < buffer.Length
      && size == |contents| <= buffer.Length
      && (forall k {:trigger Slot(start, k, buffer.Length)} :: 0 <= k < size ==>
            buffer[Slot(start, k, buffer.Length)] == Some(contents[k]))
      && (forall k {:trigger Slot(start, k, buffer.Length)} :: size <= k < buffer.Length ==>
            buffer[Slot(start, k, buffer.Length)] == None)
    }

    ghost function Value(): Window
      reads this
    {
      Window(contents, expectBegin)
    }

    constructor (initialSize: nat)
      requires 0 < initialSize
      ensures Valid() && Value() == EMPTY
      ensures fresh(buffer) && buffer.Length == initialSize
    {
      size, start, expectBegin, contents := 0, 0, 0, [];
      buffer := new Option<Segment>[initialSize](_ => None);
    }

    /** Doubles the buffer and turns the ring so that it starts at index 0. */
    method Expand()
      requires Valid()
      modifies `buffer, `start
      ensures Valid() && fresh(buffer)
      ensures buffer.Length == 2 * old(buffer.Length) && start == 0
    {
      var n := buffer.Length;
      var buf := new Option<Segment>[2 * n](_ => None);
      var end := start + size;
      if end < n {
        forall i | 0 <= i < size {
          buf[i] := buffer[start + i];
        }
      } else {
        forall i | 0 <= i < n - start {
          buf[i] := buffer[start + i];
        }
        forall i | 0 <= i < end - n {
          buf[n - start + i] := buffer[i];
        }
      }
      forall k | 0 <= k < size
        ensures buf[k] == Some(contents[k])
      {
        assert buffer[Slot(start, k, n)] == Some(contents[k]);
      }
      start := 0;
      buffer := buf;
    }

    method Insert(s: Segment)
      requires Valid()
      modifies this, buffer
      ensures Valid() && (buffer == old(buffer) || fresh(buffer))
      ensures Value() == Inserted(old(Value()), s)
    {
      if expectBegin != 0 && Compare(expectBegin, s.End()) >= 0 {
        return;
      }
      if |s.payload| == 0 {
        return;
      }
      var idx := size;
      while idx > 0
        invariant 0 <= idx <= size
        invariant FindSlot(contents, s.begin, size) == FindSlot(contents, s.begin, idx)
      {
        var prev := buffer[Slot(start, idx - 1, buffer.Length)].value;
        var result := Compare(prev.begin, s.begin);
        if result == 0 {
          return;
        }
        if result < 0 {
          break;
        }
        idx := idx - 1;
      }
      if size == buffer.Length {
        Expand();
      }
      Place(s, idx);
    }

    /** Puts a segment at ring position idx of a ring that is not full. */
    method Place(s: Segment, idx: nat)
      requires Valid() && idx <= size < buffer.Length
      modifies buffer, `size, `contents
      ensures Valid()
      ensures contents == InsertAt(old(contents), s, idx)
    {
      hide Slot;
      ghost var n, cs := buffer.Length, InsertAt(contents, s, idx);
      if idx < size {
        ShiftUp(idx);
      }
      InsertedAt(contents, s, idx);
      var index := Slot(start, idx, buffer.Length);
      buffer[index] := Some(s);
      forall k {:trigger Slot(start, k, n)} | 0 <= k < n
        ensures buffer[Slot(start, k, n)] == if k <= size then Some(cs[k]) else None
      {
        if k != idx {
          SlotInjective(start, k, idx, n);
        }
      }
      size := size + 1;
      contents := cs;
    }

    /** Moves the segments from idx on one slot up; slot idx keeps a copy of its segment. */
    method ShiftUp(idx: nat)
      requires Valid() && idx < size < buffer.Length
      modifies buffer
      ensures forall k {:trigger Slot(start, k, buffer.Length)} :: 0 <= k < buffer.Length ==>
                buffer[Slot(start, k, buffer.Length)] ==
                  if k <= idx then Some(contents[k])
                  else if k <= size then Some(contents[k - 1]) else None
    {
      var i := size - 1;
      while i >= idx
        invariant idx - 1 <= i < size
        invariant forall k {:trigger Slot(start, k, buffer.Length)} :: 0 <= k < buffer.Length ==>
                    buffer[Slot(start, k, buffer.Length)] ==
                      if k < size && k <= i + 1 then Some(contents[k])
                      else if i + 1 < k <= size then Some(contents[k - 1]) else None
      {
        var next := Slot(start, i + 1, buffer.Length);
        var current := Slot(start, i, buffer.Length);
        buffer[next] := buffer[current];
        i := i - 1;
      }
    }

    /** The ring while its first idx slots have been cleared. */
    ghost predicate Draining(idx: nat)
      reads this, buffer
    {
      && start < buffer.Length
      && idx <= size == |contents| <= buffer.Length
      && (forall k {:trigger Slot(start, k, buffer.Length)} :: idx <= k < size ==>
            buffer[Slot(start, k, buffer.Length)] == Some(contents[k]))
      && (forall k {:trigger Slot(start, k, buffer.Length)} ::
            0 <= k < idx || size <= k < buffer.Length ==>
            buffer[Slot(start, k, buffer.Length)] == None)
    }

    /** The segment in slot idx. */
    method At(idx: nat) returns (packet: Segment)
      requires Draining(idx) && idx < size == |contents|
      ensures packet == contents[idx]
    {
      packet := buffer[Slot(start, idx, buffer.Length)].value;
    }

    /** Takes the segment out of slot idx, leaving the slot empty. */
    method Take(idx: nat) returns (packet: Segment)
      requires Draining(idx) && idx < size == |contents|
      modifies buffer
      ensures Draining(idx + 1) && packet == contents[idx]
    {
      var index := Slot(start, idx, buffer.Length);
      packet := buffer[index].value;
      buffer[index] := None;
    }

    /** Advances the ring past idx slots that have been cleared. */
    method DropFront(idx: nat)
      requires Draining(idx) && idx <= |contents|
      modifies `start, `size, `contents
      ensures Valid() && contents == old(contents)[idx..]
    {
      ghost var n, s0 := buffer.Length, start;
      start := Slot(start, idx, buffer.Length);
      size := size - idx;
      contents := contents[idx..];
      forall k {:trigger Slot(start, k, n)} | 0 <= k < n
        ensures buffer[Slot(start, k, n)] == if k < size then Some(contents[k]) else None
      {
        var k' := if k + idx < n then k + idx else k + idx - n;
        assert Slot(s0, k', n) == Slot(start, k, n);
      }
    }

    /** Takes the segment at idx out of the ring and sends what is left of it after trimming. */
    method ReleaseSlot(idx: nat, c: Channel)
      requires Draining(idx) && idx < size == |contents| && !c.closed
      modifies buffer, `expectBegin, c`queue
      ensures Draining(idx + 1)
      ensures match Trim(old(expectBegin), contents[idx])
              case None => expectBegin == old(expectBegin) && c.queue == old(c.queue)
              case Some(t) => expectBegin == contents[idx].End() && c.queue == old(c.queue) + [t]
    {
      var packet := Take(idx);
      var newExpect := packet.End();
      if expectBegin != 0 {
        var diff := Compare(expectBegin, packet.begin);
        if diff > 0 {
          var dup := Sub(expectBegin, packet.begin);
          if dup >= |packet.payload| % MODULUS {
            return;
          }
          packet := packet.(payload := packet.payload[dup..]);
        }
      }
      c.Send(packet);
      expectBegin := newExpect;
    }

    /** The loop of Confirm; idx slots have been cleared when it ends. */
    method ReleaseBelow(ack: U32, c: Channel) returns (idx: nat)
      requires Draining(0) && size == |contents| && !c.closed
      modifies buffer, `expectBegin, c`queue
      ensures idx <= |contents| && Draining(idx)
      ensures var r := Confirmed(old(Value()), ack);
              && r.window == Window(contents[idx..], expectBegin)
              && c.queue == old(c.queue) + r.sent
    {
      hide Draining, Confirmed, Trim;
      ghost var cs, whole, sent := contents, Confirmed(Value(), ack), [];
      idx := 0;
      assert cs[idx..] == cs;
      while idx < size
        invariant idx <= size == |cs| && Draining(idx)
        invariant c.queue == old(c.queue) + sent
        invariant var r := Confirmed(Window(cs[idx..], expectBegin), ack);
                  whole.window == r.window && whole.sent == sent + r.sent
      {
        ConfirmedSuffix(cs, idx, expectBegin, ack);
        var packet := At(idx);
        if Compare(packet.begin, ack) >= 0 {
          break;
        }
        ghost var t := Trim(expectBegin, packet);
        ReleaseSlot(idx, c);
        idx := idx + 1;
        if t.Some? {
          Assoc(sent, [t.value], Confirmed(Window(cs[idx..], expectBegin), ack).sent);
          sent := sent + [t.value];
        }
      }
      if idx == size {
        assert cs[idx..] == [];
        ConfirmedNothing(expectBegin, ack);
      }
      assert sent + [] == sent;
    }

    method Confirm(ack: U32, c: Channel)
      requires Valid() && !c.closed
      modifies this, buffer, c`queue
      ensures Valid() && buffer == old(buffer)
      ensures var r := Confirmed(old(Value()), ack);
              Value() == r.window && c.queue == old(c.queue) + r.sent
    {
      var idx := ReleaseBelow(ack, c);
      DropFront(idx);
    }
  }
}
