/**
 Whole runs of the receive window over one epoch, when every captured segment is cut from
 one byte stream: what is released, in which order, and exactly which positions of the
 stream it covers (tcpport/assembler.go).
 */
module WindowRuns {
  import opened Wrappers
  import opened Bytes
  import opened TcpSeq
  import opened SegmentWindow
  import opened Seqs

  /** What one direction sends: the byte numbered n of the epoch is data[n - epoch.lo]. */
  datatype Stream = Stream(epoch: Epoch, data: seq<Byte>) {
    ghost predicate Valid()
    {
      epoch.Valid() && |data| == epoch.hi - epoch.lo
    }

    ghost predicate Has(x: int)
    {
      epoch.lo <= x < epoch.hi
    }

    function At(x: int): Byte
      requires Valid() && Has(x)
    {
      data[x - epoch.lo]
    }

    /** The segment carries the stream's own bytes at its own numbers. */
    ghost predicate Cuts(s: Segment)
      requires Valid()
    {
      && epoch.lo <= s.begin
      && s.begin + |s.payload| <= epoch.hi
      && (forall i :: 0 <= i < |s.payload| ==> s.payload[i] == At(s.begin + i))
    }
  }

  datatype Event = Arrive(segment: Segment) | Ack(number: U32)

  ghost predicate EventOf(st: Stream, ev: Event)
    requires st.Valid()
  {
    match ev
    case Arrive(s) => st.Cuts(s)
    case Ack(n) => st.epoch.Has(n)
  }

  ghost predicate EventsOf(st: Stream, evs: seq<Event>)
    requires st.Valid()
  {
    forall ev <- evs :: EventOf(st, ev)
  }

  function Run(w: Window, evs: seq<Event>): Release
    decreases |evs|
  {
    if evs == [] then Release(w, [])
    else match evs[0]
      case Arrive(s) => Run(Inserted(w, s), evs[1..])
      case Ack(n) =>
        var r := Confirmed(w, n);
        var rest := Run(r.window, evs[1..]);
        Release(rest.window, r.sent + rest.sent)
  }

  /** The byte stream a reader of the channel sees. */
  function Payloads(sent: seq<Segment>): seq<Byte>
  {
    if sent == [] then [] else sent[0].payload + Payloads(sent[1..])
  }

  lemma {:induction false} PayloadsConcat(a: seq<Segment>, b: seq<Segment>)
    ensures Payloads(a + b) == Payloads(a) + Payloads(b)
  {
    if a == [] {
      assert a + b == b;
    } else {
      assert (a + b)[1..] == a[1..] + b;
      PayloadsConcat(a[1..], b);
    }
  }

  ghost predicate Sorted(cs: seq<Segment>)
  {
    forall i, j :: 0 <= i < j < |cs| ==> cs[i].begin < cs[j].begin
  }

  /** The invariant of a window fed from one stream. */
  ghost predicate WindowOf(st: Stream, w: Window)
    requires st.Valid()
  {
    && (w.next == 0 || st.epoch.Has(w.next))
    && (forall s <- w.contents :: st.Cuts(s) && s.payload != [])
    && Sorted(w.contents)
  }

  lemma EndInEpoch(st: Stream, s: Segment)
    requires st.Valid() && st.Cuts(s)
    ensures s.End() == s.begin + |s.payload| && st.epoch.Has(s.End())
  {
  }

  /** On a sorted window the downward scan finds the one place that keeps it sorted. */
  lemma {:induction false} FindSlotSorted(st: Stream, cs: seq<Segment>, n: U32, idx: nat)
    requires st.Valid() && st.epoch.Has(n) && idx <= |cs| && Sorted(cs)
    requires forall s <- cs :: st.Cuts(s)
    ensures match FindSlot(cs, n, idx)
            case None => exists k :: 0 <= k < idx && cs[k].begin == n
            case Some(i) =>
              && (forall k :: 0 <= k < i ==> cs[k].begin < n)
              && (forall k :: i <= k < idx ==> n < cs[k].begin)
  {
    if idx > 0 {
      assert cs[idx - 1] in cs;
      CompareInEpoch(st.epoch, cs[idx - 1].begin, n);
      FindSlotSorted(st, cs, n, idx - 1);
    }
  }

  /** Putting a segment at the place between smaller and larger numbers keeps the order. */
  lemma InsertAtSorted(cs: seq<Segment>, s: Segment, i: nat)
    requires Sorted(cs) && i <= |cs|
    requires forall k :: 0 <= k < i ==> cs[k].begin < s.begin
    requires forall k :: i <= k < |cs| ==> s.begin < cs[k].begin
    ensures Sorted(InsertAt(cs, s, i))
    ensures forall y <- cs :: y.begin != s.begin
  {
    var r := InsertAt(cs, s, i);
    assert forall k :: 0 <= k < |r| ==>
      r[k] == if k < i then cs[k] else if k == i then s else cs[k - 1];
  }

  lemma InsertAtMembers(cs: seq<Segment>, s: Segment, i: nat)
    requires i <= |cs|
    ensures forall x :: x in InsertAt(cs, s, i) <==> x in cs || x == s
  {
    assert cs == cs[..i] + cs[i..];
  }

  /** A segment is taken when it carries bytes, ends beyond what went out, and is not a repeat. */
  ghost predicate Fresh(w: Window, s: Segment)
  {
    && s.payload != []
    && (w.next == 0 || w.next < s.begin + |s.payload|)
    && (forall y <- w.contents :: y.begin != s.begin)
  }

  /** Insertion is sorted insertion of exactly the fresh segments. */
  lemma InsertedMeaning(st: Stream, w: Window, s: Segment)
    requires st.Valid() && WindowOf(st, w) && st.Cuts(s)
    ensures WindowOf(st, Inserted(w, s)) && Inserted(w, s).next == w.next
    ensures forall x :: x in Inserted(w, s).contents <==> x in w.contents || (x == s && Fresh(w, s))
  {
    EndInEpoch(st, s);
    if w.next != 0 {
      CompareInEpoch(st.epoch, w.next, s.End());
    }
    FindSlotSorted(st, w.contents, s.begin, |w.contents|);
    if !AlreadyDelivered(w.next, s) && s.payload != [] {
      match FindSlot(w.contents, s.begin, |w.contents|)
      case None =>
      case Some(i) =>
        InsertAtMembers(w.contents, s, i);
        InsertAtSorted(w.contents, s, i);
    }
  }

  ghost predicate Covers(s: Segment, x: int)
  {
    s.begin <= x < s.begin + |s.payload|
  }

  /** Position x is due on this acknowledgement. */
  ghost predicate Due(w: Window, ack: int, x: int)
  {
    (w.next == 0 || w.next <= x) && exists s <- w.contents :: s.begin < ack && Covers(s, x)
  }

  /** bytes are the stream's bytes at the positions p, which increase strictly. */
  ghost predicate Labels(st: Stream, p: seq<int>, bytes: seq<Byte>)
    requires st.Valid()
  {
    && |p| == |bytes|
    && (forall i, j :: 0 <= i < j < |p| ==> p[i] < p[j])
    && (forall i :: 0 <= i < |p| ==> st.Has(p[i]) && bytes[i] == st.At(p[i]))
  }

  function Range(from: int, to: int): (p: seq<int>)
    requires from <= to
    ensures |p| == to - from
    ensures forall i :: 0 <= i < |p| ==> p[i] == from + i
  {
    seq(to - from, i => from + i)
  }

  lemma IncreasingAppend(p: seq<int>, q: seq<int>)
    requires forall i, j :: 0 <= i < j < |p| ==> p[i] < p[j]
    requires forall i, j :: 0 <= i < j < |q| ==> q[i] < q[j]
    requires p != [] && q != [] ==> p[|p| - 1] < q[0]
    ensures forall i, j :: 0 <= i < j < |p + q| ==> (p + q)[i] < (p + q)[j]
  {
    forall i, j | 0 <= i < j < |p + q|
      ensures (p + q)[i] < (p + q)[j]
    {
      if i < |p| <= j {
        assert p[i] <= p[|p| - 1] < q[0] <= q[j - |p|];
      }
    }
  }

  /** The byte at each position is the stream's. */
  ghost predicate Match(st: Stream, p: seq<int>, b: seq<Byte>)
    requires st.Valid()
  {
    |p| == |b| && forall i :: 0 <= i < |p| ==> st.Has(p[i]) && b[i] == st.At(p[i])
  }

  lemma MatchAppend(st: Stream, p: seq<int>, b: seq<Byte>, q: seq<int>, c: seq<Byte>)
    requires st.Valid() && Match(st, p, b) && Match(st, q, c)
    ensures Match(st, p + q, b + c)
  {
    hide Stream.Has, Stream.Valid;
    forall i | 0 <= i < |p + q|
      ensures st.Has((p + q)[i]) && (b + c)[i] == st.At((p + q)[i])
    {
      if i < |p| {
        assert (p + q)[i] == p[i] && (b + c)[i] == b[i];
      } else {
        assert (p + q)[i] == q[i - |p|] && (b + c)[i] == c[i - |p|];
      }
    }
  }

  lemma LabelsAppend(st: Stream, p: seq<int>, b: seq<Byte>, q: seq<int>, c: seq<Byte>)
    requires st.Valid() && Labels(st, p, b) && Labels(st, q, c)
    requires p != [] && q != [] ==> p[|p| - 1] < q[0]
    ensures Labels(st, p + q, b + c)
  {
    hide Stream.Valid, Match;
    LabelsMatch(st, p, b);
    LabelsMatch(st, q, c);
    IncreasingAppend(p, q);
    MatchAppend(st, p, b, q, c);
    LabelsMatch(st, p + q, b + c);
  }

  lemma LabelsMatch(st: Stream, p: seq<int>, b: seq<Byte>)
    requires st.Valid()
    ensures Labels(st, p, b) <==> Match(st, p, b) && forall i, j :: 0 <= i < j < |p| ==> p[i] < p[j]
  {
  }

  /** Trimming in an epoch: what is left is the part of the segment from w.next on. */
  lemma TrimMeaning(st: Stream, next: U32, s: Segment)
    requires st.Valid() && st.Cuts(s) && s.payload != []
    requires next == 0 || st.epoch.Has(next)
    ensures var from := if next > s.begin then next else s.begin;
            if from >= s.begin + |s.payload| then Trim(next, s) == None
            else Trim(next, s) == Some(s.(payload := s.payload[from - s.begin..]))
  {
    if next != 0 {
      CompareInEpoch(st.epoch, next, s.begin);
    }
  }

  /** What one acknowledgement must do, p being the positions it releases. */
  ghost predicate Acknowledges(st: Stream, w: Window, ack: U32, r: Release, p: seq<int>)
    requires st.Valid()
  {
    && Labels(st, p, Payloads(r.sent))
    && (forall x :: x in p <==> Due(w, ack, x))
    && WindowOf(st, r.window)
    && r.window.next == (if p == [] then w.next else p[|p| - 1] + 1)
    && (forall s :: s in r.window.contents <==> s in w.contents && ack <= s.begin)
  }

  /** A position is due when it lies in the part released of the first segment, or is due after it. */
  lemma DueSplit(w: Window, s: Segment, tail: seq<Segment>, ack: U32, x: int, from: int)
    requires w.contents == [s] + tail && Sorted(w.contents) && s.begin < ack
    requires from == (if w.next > s.begin then w.next else s.begin)
    requires from < s.begin + |s.payload| == s.End()
    ensures Due(w, ack, x) <==> from <= x < s.End() || Due(Window(tail, s.End()), ack, x)
  {
    assert s in w.contents;
    assert forall y <- tail :: y in w.contents;
    if from <= x < s.End() {
      assert Covers(s, x);
    }
    if Due(w, ack, x) && x < s.End() {
      var y :| y in w.contents && y.begin < ack && Covers(y, x);
      SortedHead(w.contents, y);
    }
  }

  lemma SortedHead(cs: seq<Segment>, y: Segment)
    requires Sorted(cs) && y in cs
    ensures cs[0].begin <= y.begin
  {
    var k :| 0 <= k < |cs| && cs[k] == y;
    if k > 0 {
      assert cs[0].begin < cs[k].begin;
    }
  }

  lemma TailOf(st: Stream, w: Window, next: U32)
    requires st.Valid() && WindowOf(st, w) && w.contents != []
    requires next == 0 || st.epoch.Has(next)
    ensures WindowOf(st, Window(w.contents[1..], next))
  {
  }

  /** What is left of a trimmed segment, labelled with its positions. */
  lemma TrimLabels(st: Stream, next: U32, s: Segment) returns (from: int)
    requires st.Valid() && st.Cuts(s) && s.payload != []
    requires next == 0 || st.epoch.Has(next)
    requires Trim(next, s).Some?
    ensures from == (if next > s.begin then next else s.begin)
    ensures s.begin <= from < s.End() == s.begin + |s.payload|
    ensures Labels(st, Range(from, s.End()), Trim(next, s).value.payload)
  {
    hide Labels, Stream.Cuts, Trim, Range, Segment.End;
    TrimMeaning(st, next, s);
    EndInEpoch(st, s);
    from := if next > s.begin then next else s.begin;
    SuffixLabels(st, s, from - s.begin);
  }

  lemma SuffixLabels(st: Stream, s: Segment, d: nat)
    requires st.Valid() && st.Cuts(s) && d <= |s.payload|
    ensures Labels(st, Range(s.begin + d, s.begin + |s.payload|), s.payload[d..])
  {
    forall i | 0 <= i < |s.payload| - d
      ensures s.payload[d..][i] == st.At(s.begin + d + i)
    {
      assert s.payload[d..][i] == s.payload[d + i];
    }
  }

  /** The positions released of the first segment and those due after it are the due ones. */
  lemma DueCons(w: Window, s: Segment, tail: seq<Segment>, ack: U32, from: int, q: seq<int>)
    requires w.contents == [s] + tail && Sorted(w.contents) && s.begin < ack
    requires from == (if w.next > s.begin then w.next else s.begin)
    requires from < s.begin + |s.payload| == s.End()
    requires forall x :: x in q <==> Due(Window(tail, s.End()), ack, x)
    ensures forall x :: x in Range(from, s.End()) + q <==> Due(w, ack, x)
    ensures q != [] ==> s.End() <= q[0]
  {
    hide Range, Sorted, Segment.End;
    forall x
      ensures x in Range(from, s.End()) + q <==> Due(w, ack, x)
    {
      DueSplit(w, s, tail, ack, x, from);
      RangeMembers(from, s.End(), x);
    }
    if q != [] {
      assert Due(Window(tail, s.End()), ack, q[0]);
    }
  }

  lemma RangeLast(from: int, to: int, q: seq<int>)
    requires from < to
    ensures var p := Range(from, to) + q;
            p != [] && p[|p| - 1] == if q == [] then to - 1 else q[|q| - 1]
    ensures Range(from, to)[to - from - 1] == to - 1
  {
  }

  lemma KeptCons(cs: seq<Segment>, kept: seq<Segment>, ack: int)
    requires cs != [] && cs[0].begin < ack
    requires forall y :: y in kept <==> y in cs[1..] && ack <= y.begin
    ensures forall y :: y in kept <==> y in cs && ack <= y.begin
  {
    assert cs == [cs[0]] + cs[1..];
  }

  lemma PayloadsCons(t: Segment, sent: seq<Segment>)
    ensures Payloads([t] + sent) == t.payload + Payloads(sent)
  {
    assert ([t] + sent)[1..] == sent;
  }

  /** The step of ConfirmedMeaning for a first segment that still has bytes to release. */
  lemma AcknowledgesCons(st: Stream, w: Window, ack: U32, r: Release, q: seq<int>) returns (p: seq<int>)
    requires st.Valid() && WindowOf(st, w) && w.contents != [] && w.contents[0].begin < ack
    requires Trim(w.next, w.contents[0]).Some?
    requires Acknowledges(st, Window(w.contents[1..], w.contents[0].End()), ack, r, q)
    ensures Acknowledges(st, w, ack, Release(r.window, [Trim(w.next, w.contents[0]).value] + r.sent), p)
  {
    hide Labels, Due, Range, Trim, Payloads, Stream.Cuts, Stream.Valid, Segment.End;
    var s, tail := w.contents[0], w.contents[1..];
    var t := Trim(w.next, s).value;
    assert s in w.contents && w.contents == [s] + tail;
    var from := TrimLabels(st, w.next, s);
    DueCons(w, s, tail, ack, from, q);
    RangeLast(from, s.End(), q);
    p := Range(from, s.End()) + q;
    LabelsAppend(st, Range(from, s.End()), t.payload, q, Payloads(r.sent));
    PayloadsCons(t, r.sent);
    KeptCons(w.contents, r.window.contents, ack);
  }

  lemma RangeMembers(from: int, to: int, x: int)
    requires from <= to
    ensures x in Range(from, to) <==> from <= x < to
  {
    if from <= x < to {
      assert Range(from, to)[x - from] == x;
    }
  }

  /** A first segment all of whose bytes went out before adds nothing that is due. */
  lemma DueDrop(w: Window, s: Segment, tail: seq<Segment>, ack: U32, x: int)
    requires w.contents == [s] + tail && w.next != 0 && w.next >= s.begin + |s.payload|
    ensures Due(w, ack, x) <==> Due(Window(tail, w.next), ack, x)
  {
    assert forall y <- tail :: y in w.contents;
  }

  /** Nothing is due when the buffer is empty or starts at or above the acknowledgement. */
  lemma AcknowledgesStop(st: Stream, w: Window, ack: U32)
    requires st.Valid() && WindowOf(st, w) && (w.contents == [] || ack <= w.contents[0].begin)
    ensures Acknowledges(st, w, ack, Release(w, []), [])
  {
    forall y <- w.contents
      ensures ack <= y.begin
    {
      SortedHead(w.contents, y);
    }
  }

  /** The step of ConfirmedMeaning for a first segment all of whose bytes went out before. */
  lemma AcknowledgesDrop(st: Stream, w: Window, ack: U32, r: Release, p: seq<int>)
    requires st.Valid() && WindowOf(st, w) && w.contents != [] && w.contents[0].begin < ack
    requires Trim(w.next, w.contents[0]).None?
    requires Acknowledges(st, Window(w.contents[1..], w.next), ack, r, p)
    ensures Acknowledges(st, w, ack, r, p)
  {
    hide Labels, Due, Trim, Payloads, Stream.Cuts, Stream.Valid;
    var s, tail := w.contents[0], w.contents[1..];
    assert s in w.contents && w.contents == [s] + tail;
    TrimMeaning(st, w.next, s);
    forall x
      ensures Due(w, ack, x) <==> Due(Window(tail, w.next), ack, x)
    {
      DueDrop(w, s, tail, ack, x);
    }
    KeptCons(w.contents, r.window.contents, ack);
  }

  /**
   One acknowledgement: the bytes released are the stream's bytes at exactly the due
   positions, in increasing order; the segments kept are exactly those at or above the
   acknowledgement; and the expected number moves to just past the last byte released.
   */
  lemma {:induction false} ConfirmedMeaning(st: Stream, w: Window, ack: U32) returns (p: seq<int>)
    requires st.Valid() && WindowOf(st, w) && st.epoch.Has(ack)
    ensures Acknowledges(st, w, ack, Confirmed(w, ack), p)
    decreases |w.contents|
  {
    hide Confirmed, Acknowledges, Trim, Compare, Sorted, Segment.End;
    p := [];
    if w.contents == [] {
      ConfirmedNothing(w.next, ack);
      AcknowledgesStop(st, w, ack);
      return;
    }
    var s, tail := w.contents[0], w.contents[1..];
    ConfirmedSuffix(w.contents, 0, w.next, ack);
    assert w.contents[0..] == w.contents;
    assert s in w.contents;
    CompareInEpoch(st.epoch, s.begin, ack);
    EndInEpoch(st, s);
    if s.begin >= ack {
      AcknowledgesStop(st, w, ack);
    } else if Trim(w.next, s).None? {
      TailOf(st, w, w.next);
      p := ConfirmedMeaning(st, Window(tail, w.next), ack);
      AcknowledgesDrop(st, w, ack, Confirmed(w, ack), p);
    } else {
      TailOf(st, w, s.End());
      var q := ConfirmedMeaning(st, Window(tail, s.End()), ack);
      p := AcknowledgesCons(st, w, ack, Confirmed(Window(tail, s.End()), ack), q);
    }
  }

  /** What a whole run must do, p being the positions it releases. */
  ghost predicate Delivers(st: Stream, w: Window, r: Release, p: seq<int>)
    requires st.Valid()
  {
    && Labels(st, p, Payloads(r.sent))
    && WindowOf(st, r.window)
    && (forall x <- p :: w.next <= x)
    && w.next <= r.window.next
    && r.window.next == (if p == [] then w.next else p[|p| - 1] + 1)
  }

  lemma DeliversAppend(st: Stream, w: Window, r: Release, rest: Release, a: seq<int>, b: seq<int>)
    requires st.Valid() && WindowOf(st, w)
    requires Delivers(st, w, r, a) && Delivers(st, r.window, rest, b)
    ensures Delivers(st, w, Release(rest.window, r.sent + rest.sent), a + b)
  {
    PayloadsConcat(r.sent, rest.sent);
    assert a != [] && b != [] ==> a[|a| - 1] < b[0] by {
      assert b != [] ==> b[0] in b;
    }
    LabelsAppend(st, a, Payloads(r.sent), b, Payloads(rest.sent));
    assert a + b != [] ==> (a + b)[|a + b| - 1] == if b == [] then a[|a| - 1] else b[|b| - 1];
  }

  lemma AcknowledgesDelivers(st: Stream, w: Window, n: U32, r: Release, p: seq<int>)
    requires st.Valid() && WindowOf(st, w) && Acknowledges(st, w, n, r, p)
    ensures Delivers(st, w, r, p)
  {
    DueAbove(st, w, n, p);
    assert p != [] ==> p[|p| - 1] in p;
  }

  lemma DueAbove(st: Stream, w: Window, n: U32, p: seq<int>)
    requires st.Valid() && WindowOf(st, w)
    requires forall x :: x in p <==> Due(w, n, x)
    ensures forall x <- p :: w.next <= x
  {
    forall x <- p
      ensures w.next <= x
    {
      assert Due(w, n, x);
    }
  }

  // Gaps

  /** Where the next release starts: the expected number, or the first segment's number. */
  function Base(w: Window): int
  {
    if w.next != 0 || w.contents == [] then w.next else w.contents[0].begin
  }

  ghost predicate Buffered(w: Window, x: int)
  {
    exists y <- w.contents :: Covers(y, x)
  }

  /** No position between the base and a segment about to be released is missing. */
  ghost predicate HoleFree(w: Window, ack: int)
  {
    forall s <- w.contents, x: int ::
      s.begin < ack && Base(w) <= x < s.begin ==> Buffered(w, x)
  }

  ghost predicate ConsecutiveFrom(p: seq<int>, n: int)
  {
    forall i :: 0 <= i < |p| ==> p[i] == n + i
  }

  /** An increasing sequence closed downwards as far as n is the consecutive one from n. */
  lemma DownwardClosed(p: seq<int>, n: int)
    requires forall i, j :: 0 <= i < j < |p| ==> p[i] < p[j]
    requires forall x <- p :: n <= x
    requires forall x, y: int :: x in p && n <= y < x ==> y in p
    ensures ConsecutiveFrom(p, n)
  {
    for k := 0 to |p|
      invariant forall i :: 0 <= i < k ==> p[i] == n + i
    {
      assert p[k] in p;
      assert k > 0 ==> p[k - 1] < p[k];
      if n + k < p[k] {
        assert n + k in p;
        var j :| 0 <= j < |p| && p[j] == n + k;
        assert j < k || k < j;
      }
    }
  }

  lemma DueAboveBase(w: Window, ack: U32, x: int)
    requires Sorted(w.contents) && Due(w, ack, x)
    ensures Base(w) <= x
  {
    var s :| s in w.contents && s.begin < ack && Covers(s, x);
    SortedHead(w.contents, s);
  }

  /** One release is consecutive from the base exactly when the buffer has no hole there. */
  lemma ConsecutiveExactly(st: Stream, w: Window, ack: U32, r: Release, p: seq<int>)
    requires st.Valid() && WindowOf(st, w) && Acknowledges(st, w, ack, r, p)
    ensures ConsecutiveFrom(p, Base(w)) <==> HoleFree(w, ack)
  {
    if HoleFree(w, ack) {
      forall x, y: int | x in p && Base(w) <= y < x
        ensures y in p
      {
        HoleFreeDue(w, ack, x, y);
      }
      forall x <- p ensures Base(w) <= x {
        DueAboveBase(w, ack, x);
      }
      DownwardClosed(p, Base(w));
    }
    if ConsecutiveFrom(p, Base(w)) {
      forall s <- w.contents, x: int | s.begin < ack && Base(w) <= x < s.begin
        ensures Buffered(w, x)
      {
        var last := s.begin + |s.payload| - 1;
        assert Covers(s, last) && Due(w, ack, last);
        assert last in p && p[x - Base(w)] == x;
        assert Due(w, ack, x);
      }
    }
  }

  lemma HoleFreeDue(w: Window, ack: U32, x: int, y: int)
    requires HoleFree(w, ack) && Due(w, ack, x) && Base(w) <= y < x
    ensures Due(w, ack, y)
  {
    var s :| s in w.contents && s.begin < ack && Covers(s, x);
    if s.begin <= y {
      assert Covers(s, y);
    } else {
      assert Buffered(w, y);
      var z :| z in w.contents && Covers(z, y);
      assert z.begin < ack;
    }
  }

  /** The first release of all starts at the base. */
  lemma FirstAtBase(st: Stream, w: Window, ack: U32, r: Release, p: seq<int>)
    requires st.Valid() && WindowOf(st, w) && Acknowledges(st, w, ack, r, p)
    requires p != [] && w.next == 0
    ensures p[0] == Base(w)
  {
    assert p[0] in p && Due(w, ack, p[0]);
    var s :| s in w.contents && s.begin < ack && Covers(s, p[0]);
    SortedHead(w.contents, s);
    var h := w.contents[0];
    assert h in w.contents && Covers(h, h.begin) && Due(w, ack, h.begin);
    assert h.begin in p;
    DueAboveBase(w, ack, p[0]);
  }

  /** At every acknowledgement of the run the buffer has no hole. */
  ghost predicate HoleFreeRun(w: Window, evs: seq<Event>)
    decreases |evs|
  {
    evs == [] ||
    match evs[0]
    case Arrive(s) => HoleFreeRun(Inserted(w, s), evs[1..])
    case Ack(n) => HoleFree(w, n) && HoleFreeRun(Confirmed(w, n).window, evs[1..])
  }

  /** The positions follow one another, and follow the expected number if one is set. */
  ghost predicate Unbroken(w: Window, p: seq<int>)
  {
    p != [] ==> ConsecutiveFrom(p, if w.next != 0 then w.next else p[0])
  }

  lemma UnbrokenAppend(st: Stream, w: Window, n: U32, r: Release, a: seq<int>, b: seq<int>)
    requires st.Valid() && WindowOf(st, w) && Acknowledges(st, w, n, r, a)
    ensures Unbroken(w, a + b) <==> HoleFree(w, n) && Unbroken(r.window, b)
  {
    ConsecutiveExactly(st, w, n, r, a);
    if a == [] {
      assert a + b == b;
    } else {
      if w.next == 0 {
        FirstAtBase(st, w, n, r, a);
      }
      assert a[|a| - 1] in a && Due(w, n, a[|a| - 1]);
      assert r.window.next == a[|a| - 1] + 1 != 0;
      ConsecutiveAppend(a, b, Base(w));
    }
  }

  lemma ConsecutiveAppend(a: seq<int>, b: seq<int>, n: int)
    ensures ConsecutiveFrom(a + b, n) <==> ConsecutiveFrom(a, n) && ConsecutiveFrom(b, n + |a|)
  {
    if ConsecutiveFrom(a + b, n) {
      assert forall i :: 0 <= i < |a| ==> a[i] == (a + b)[i];
      assert forall i :: 0 <= i < |b| ==> b[i] == (a + b)[|a| + i];
    }
  }

  /**
   Over every run, the released bytes are the stream's bytes at strictly increasing
   positions, none below the expected number the run started from, and the expected number
   never falls. The positions are gap-free exactly when no acknowledgement finds a hole.
   */
  lemma {:induction false} RunInOrder(st: Stream, w: Window, evs: seq<Event>) returns (p: seq<int>)
    requires st.Valid() && WindowOf(st, w) && EventsOf(st, evs)
    ensures Delivers(st, w, Run(w, evs), p)
    ensures Unbroken(w, p) <==> HoleFreeRun(w, evs)
    decreases |evs|
  {
    p := [];
    if evs != [] {
      assert EventOf(st, evs[0]);
      match evs[0]
      case Arrive(s) =>
        InsertedMeaning(st, w, s);
        p := RunInOrder(st, Inserted(w, s), evs[1..]);
      case Ack(n) =>
        var r := Confirmed(w, n);
        var a := ConfirmedMeaning(st, w, n);
        var b := RunInOrder(st, r.window, evs[1..]);
        AcknowledgesDelivers(st, w, n, r, a);
        DeliversAppend(st, w, r, Run(r.window, evs[1..]), a, b);
        UnbrokenAppend(st, w, n, r, a, b);
        p := a + b;
    }
  }

  /** The buffer covers everything from the base to the acknowledgement. */
  ghost predicate Fills(w: Window, ack: int)
  {
    w.next != 0 || w.contents != [] ==> forall x: int :: Base(w) <= x < ack ==> Buffered(w, x)
  }

  ghost predicate FilledRun(w: Window, evs: seq<Event>)
    decreases |evs|
  {
    evs == [] ||
    match evs[0]
    case Arrive(s) => FilledRun(Inserted(w, s), evs[1..])
    case Ack(n) => Fills(w, n) && FilledRun(Confirmed(w, n).window, evs[1..])
  }

  lemma {:induction false} FilledIsHoleFree(w: Window, evs: seq<Event>)
    requires FilledRun(w, evs)
    ensures HoleFreeRun(w, evs)
    decreases |evs|
  {
    if evs != [] {
      match evs[0]
      case Arrive(s) => FilledIsHoleFree(Inserted(w, s), evs[1..]);
      case Ack(n) => FilledIsHoleFree(Confirmed(w, n).window, evs[1..]);
    }
  }

  /** After a filled acknowledgement the expected number, once set, has reached it. */
  lemma FilledReaches(st: Stream, w: Window, n: U32, r: Release, p: seq<int>)
    requires st.Valid() && WindowOf(st, w) && Acknowledges(st, w, n, r, p) && Fills(w, n)
    requires r.window.next != 0
    ensures n <= r.window.next
  {
    if p != [] {
      assert p[0] in p && Due(w, n, p[0]);
      DueAboveBase(w, n, p[0]);
    }
    if Base(w) < n {
      assert Buffered(w, n - 1);
      assert Due(w, n, n - 1);
    }
  }

  lemma {:induction false} RunAppend(w: Window, evs: seq<Event>, n: U32)
    ensures var a, b := Run(w, evs), Run(w, evs + [Ack(n)]);
            && b.window == Confirmed(a.window, n).window
            && b.sent == a.sent + Confirmed(a.window, n).sent
    decreases |evs|
  {
    var all := evs + [Ack(n)];
    if evs == [] {
      var r := Confirmed(w, n);
      assert all[1..] == [] && Run(r.window, []).sent == [];
      assert r.sent + [] == r.sent && [] + r.sent == r.sent;
    } else {
      assert all[0] == evs[0] && all[1..] == evs[1..] + [Ack(n)];
      match evs[0]
      case Arrive(s) => RunAppend(Inserted(w, s), evs[1..], n);
      case Ack(m) =>
        var r := Confirmed(w, m);
        RunAppend(r.window, evs[1..], n);
        var a := Run(r.window, evs[1..]);
        Assoc(r.sent, a.sent, Confirmed(a.window, n).sent);
    }
  }

  lemma {:induction false} FilledLast(w: Window, evs: seq<Event>, n: U32)
    requires FilledRun(w, evs + [Ack(n)])
    ensures Fills(Run(w, evs).window, n)
    decreases |evs|
  {
    var all := evs + [Ack(n)];
    if evs != [] {
      assert all[0] == evs[0] && all[1..] == evs[1..] + [Ack(n)];
      match evs[0]
      case Arrive(s) => FilledLast(Inserted(w, s), evs[1..], n);
      case Ack(m) => FilledLast(Confirmed(w, m).window, evs[1..], n);
    }
  }

  lemma SliceOf(st: Stream, p: seq<int>, from: int, b: seq<Byte>)
    requires st.Valid() && Labels(st, p, b) && p != [] && from == p[0] && ConsecutiveFrom(p, from)
    ensures var to := p[|p| - 1] + 1;
            && st.epoch.lo <= from < to <= st.epoch.hi
            && b == st.data[from - st.epoch.lo..to - st.epoch.lo]
  {
    assert forall i :: 0 <= i < |p| ==> b[i] == st.data[from - st.epoch.lo + i];
  }

  /** The window before the last acknowledgement of a filled run, and what that releases. */
  lemma LastReaches(st: Stream, evs: seq<Event>, n: U32)
    requires st.Valid() && EventsOf(st, evs + [Ack(n)]) && FilledRun(EMPTY, evs + [Ack(n)])
    requires Run(EMPTY, evs + [Ack(n)]).window.next != 0
    ensures n <= Run(EMPTY, evs + [Ack(n)]).window.next
  {
    hide Run, Confirmed, Acknowledges, Fills, FilledRun, Labels, EventOf;
    assert forall ev <- evs :: ev in evs + [Ack(n)];
    var q := RunInOrder(st, EMPTY, evs);
    RunAppend(EMPTY, evs, n);
    FilledLast(EMPTY, evs, n);
    assert Ack(n) in evs + [Ack(n)];
    AckInEpoch(st, n);
    var w := Run(EMPTY, evs).window;
    var last := ConfirmedMeaning(st, w, n);
    FilledReaches(st, w, n, Confirmed(w, n), last);
  }

  lemma AckInEpoch(st: Stream, n: U32)
    requires st.Valid() && EventOf(st, Ack(n))
    ensures st.epoch.Has(n)
  {
  }

  /**
   When every acknowledgement finds the buffer filled up to it, everything the run has
   released is one slice of the stream without a gap, and it reaches the latest
   acknowledgement - however the segments overlap, repeat or contain one another.
   */
  lemma FilledRunIsSlice(st: Stream, evs: seq<Event>, n: U32) returns (from: int)
    requires st.Valid() && EventsOf(st, evs + [Ack(n)])
    requires FilledRun(EMPTY, evs + [Ack(n)])
    ensures var r := Run(EMPTY, evs + [Ack(n)]);
            Payloads(r.sent) != [] ==>
            && st.epoch.lo <= from < r.window.next <= st.epoch.hi
            && n <= r.window.next
            && Payloads(r.sent) == st.data[from - st.epoch.lo..r.window.next - st.epoch.lo]
  {
    hide Run, FilledRun, HoleFreeRun, Labels, EventsOf, Payloads, ConsecutiveFrom;
    var all := evs + [Ack(n)];
    var r := Run(EMPTY, all);
    FilledIsHoleFree(EMPTY, all);
    var p := RunInOrder(st, EMPTY, all);
    from := if p == [] then 0 else p[0];
    if Payloads(r.sent) != [] {
      LabelsSize(st, p, Payloads(r.sent));
      SliceOf(st, p, from, Payloads(r.sent));
      LastReaches(st, evs, n);
    }
  }

  lemma LabelsSize(st: Stream, p: seq<int>, b: seq<Byte>)
    requires st.Valid() && Labels(st, p, b)
    ensures |p| == |b|
  {
  }
}
