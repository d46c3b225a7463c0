/**
 What the receive window of one direction does, on values (tcpport/assembler.go). A window
 is the sequence of captured segments in buffer order and the next expected number.
 */
module SegmentWindow {
  import opened Wrappers
  import opened Bytes
  import opened TcpSeq

  /** A captured TCP segment: its sequence number and payload. */
  datatype Segment = Segment(begin: U32, payload: seq<Byte>) {
    /** The number after the last byte, in 32-bit arithmetic. */
    function End(): U32
    {
      Add(begin, |payload|)
    }
  }

  /** next == 0 means that nothing has been released yet. */
  datatype Window = Window(contents: seq<Segment>, next: U32)

  const EMPTY: Window := Window([], 0)

  predicate AlreadyDelivered(next: U32, s: Segment)
  {
    next != 0 && Compare(next, s.End()) >= 0
  }

  /**
   Where a segment numbered n goes among the first idx segments, found by scanning down;
   None when the scan meets a segment with an equal number.
   */
  function FindSlot(cs: seq<Segment>, n: U32, idx: nat): (r: Option<nat>)
    requires idx <= |cs|
    ensures r.Some? ==> r.value <= idx
  {
    if idx == 0 then Some(0)
    else
      var c := Compare(cs[idx - 1].begin, n);
      if c == 0 then None else if c < 0 then Some(idx) else FindSlot(cs, n, idx - 1)
  }

  function InsertAt(cs: seq<Segment>, s: Segment, i: nat): seq<Segment>
    requires i <= |cs|
  {
    cs[..i] + [s] + cs[i..]
  }

  function Inserted(w: Window, s: Segment): Window
  {
    if AlreadyDelivered(w.next, s) || s.payload == [] then w
    else match FindSlot(w.contents, s.begin, |w.contents|)
      case None => w
      case Some(i) => w.(contents := InsertAt(w.contents, s, i))
  }

  /** The outcome of an acknowledgement: the window left and what went to the channel. */
  datatype Release = Release(window: Window, sent: seq<Segment>)

  /** What one buffered segment becomes on release: None when all of it went out before. */
  function Trim(next: U32, s: Segment): (r: Option<Segment>)
    ensures r.Some? ==> r.value.begin == s.begin && |r.value.payload| <= |s.payload|
    ensures r.Some? ==> r.value.payload == s.payload[|s.payload| - |r.value.payload|..]
  {
    if next != 0 && Compare(next, s.begin) > 0 then
      var dup := Sub(next, s.begin);
      if dup >= |s.payload| % MODULUS then None
      else Some(s.(payload := s.payload[dup..]))
    else Some(s)
  }

  /** Releases segments from the front while their number compares below the acknowledgement. */
  function Confirmed(w: Window, ack: U32): Release
    decreases |w.contents|
  {
    if w.contents == [] || Compare(w.contents[0].begin, ack) >= 0 then Release(w, [])
    else
      var s := w.contents[0];
      match Trim(w.next, s)
      case None => Confirmed(Window(w.contents[1..], w.next), ack)
      case Some(t) =>
        var r := Confirmed(Window(w.contents[1..], s.End()), ack);
        Release(r.window, [t] + r.sent)
  }

  /** One step of a release over a suffix of the buffer. */
  lemma ConfirmedSuffix(cs: seq<Segment>, idx: nat, next: U32, ack: U32)
    requires idx < |cs|
    ensures var w, s := Window(cs[idx..], next), cs[idx];
            Confirmed(w, ack) ==
              if Compare(s.begin, ack) >= 0 then Release(w, [])
              else match Trim(next, s)
                case None => Confirmed(Window(cs[idx + 1..], next), ack)
                case Some(t) =>
                  var r := Confirmed(Window(cs[idx + 1..], s.End()), ack);
                  Release(r.window, [t] + r.sent)
  {
    var rest := cs[idx..];
    assert rest != [] && rest[0] == cs[idx] && rest[1..] == cs[idx + 1..];
  }

  lemma ConfirmedNothing(next: U32, ack: U32)
    ensures Confirmed(Window([], next), ack) == Release(Window([], next), [])
  {
  }
}
