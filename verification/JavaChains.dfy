/**
 Walking a chain of class descriptors (dubboport/java_deserializer.go), one walk at a time. Super
 pointers may close a cycle, so this compares the walk that looks for one with the walk that does
 not. Contents nested in the classes' fields are read as ReadContent reads them; JavaEnds and
 JavaPlain go through all depths.
 */
module JavaChains {
  import opened Wrappers
  import opened Bytes
  import opened Seqs
  import opened JavaStream

  ghost predicate Chained(descs: seq<ClassDesc>) {
    forall i :: 0 <= i < |descs| ==> InRange(descs[i].super, descs)
  }

  ghost predicate InRange(p: Option<nat>, descs: seq<ClassDesc>) {
    p.Some? ==> p.value < |descs|
  }

  /** The class n steps up from p; none above the end of the chain. */
  ghost function Nth(descs: seq<ClassDesc>, p: Option<nat>, n: nat): (q: Option<nat>)
    requires Chained(descs) && InRange(p, descs)
    ensures InRange(q, descs)
    decreases n
  {
    if n == 0 || p.None? then p else Nth(descs, descs[p.value].super, n - 1)
  }

  ghost predicate TakesAt(descs: seq<ClassDesc>, p: Option<nat>, n: nat)
    requires Chained(descs) && InRange(p, descs)
  {
    Nth(descs, p, n).Some? && descs[Nth(descs, p, n).value].Takes()
  }

  lemma {:induction false} NthAdd(descs: seq<ClassDesc>, p: Option<nat>, a: nat, b: nat)
    requires Chained(descs) && InRange(p, descs)
    ensures Nth(descs, p, a + b) == Nth(descs, Nth(descs, p, a), b)
    decreases a
  {
    if a > 0 && p.Some? {
      NthAdd(descs, descs[p.value].super, a - 1, b);
    }
  }

  /** Descriptors that are added later change no chain. */
  lemma {:induction false} NthPrefix(descs: seq<ClassDesc>, more: seq<ClassDesc>, p: Option<nat>, n: nat)
    requires Chained(descs) && Chained(more) && descs <= more && InRange(p, descs)
    ensures Nth(more, p, n) == Nth(descs, p, n)
    decreases n
  {
    if n > 0 && p.Some? {
      NthPrefix(descs, more, descs[p.value].super, n - 1);
    }
  }

  /** What comes back after k steps comes back again. */
  lemma NthPeriod(descs: seq<ClassDesc>, p: Option<nat>, k: nat, n: nat)
    requires Chained(descs) && InRange(p, descs) && Nth(descs, p, k) == p
    ensures Nth(descs, p, k + n) == Nth(descs, p, n)
  {
    NthAdd(descs, p, k, n);
  }

  // One walk.

  /** Where a walk is after some classes: still running at p, or ended with an outcome. */
  datatype Walk =
    | Running(p: Option<nat>, obj: Obj, made: seq<Obj>, st: State)
    | Ended(r: Outcome<(Obj, seq<Obj>)>)

  ghost function Before(made: seq<Obj>, w: Walk): Walk {
    match w
    case Running(p, obj, more, st) => Running(p, obj, made + more, st)
    case Ended(Done(v, st)) => Ended(Done((v.0, made + v.1), st))
    case Ended(r) => Ended(r)
  }

  /**
   n classes of one walk that does not look for classes that come back. A nested content that is
   Endless ends the walk with that outcome.
   */
  ghost function Steps(data: seq<Byte>, p: Option<nat>, obj: Obj, st: State, n: nat): (w: Walk)
    requires Sound(data, st) && Points(p, st)
    ensures w.Running? ==> w.p.Some? && Grows(data, st, w.st) && Points(w.p, w.st)
    decreases n
  {
    if p.None? then Ended(Done((obj, []), st))
    else if n == 0 then Running(p, obj, [], st)
    else
      var d := st.descs[p.value];
      match ReadOwnData(data, d, obj, st)
      case Done(o, next) => Before(o.1, Steps(data, d.super, o.0, next, n - 1))
      case Failed => Ended(Failed)
      case Panicked => Ended(Panicked)
      case Endless => Ended(Endless)
  }

  ghost predicate NeverEnds(data: seq<Byte>, p: Option<nat>, obj: Obj, st: State)
    requires Sound(data, st) && Points(p, st)
  {
    forall n: nat :: Steps(data, p, obj, st, n).Running?
  }

  lemma SoundChain(data: seq<Byte>, st: State)
    requires Sound(data, st)
    ensures Chained(st.descs)
  {
  }

  lemma BeforeAssoc(a: seq<Obj>, b: seq<Obj>, w: Walk)
    ensures Before(a, Before(b, w)) == Before(a + b, w)
  {
    match w
    case Running(_, _, more, _) => Assoc(a, b, more);
    case Ended(Done(v, _)) => Assoc(a, b, v.1);
    case Ended(_) =>
  }

  lemma BeforeNothing(a: seq<Obj>, w: Walk)
    requires |a| == 0
    ensures Before(a, w) == w
  {
    match w
    case Running(_, _, more, _) => EmptyLeft(a, more);
    case Ended(Done(v, _)) => EmptyLeft(a, v.1);
    case Ended(_) =>
  }

  /** A walk goes on from where it is. */
  lemma {:induction false} StepsAdd(data: seq<Byte>, p: Option<nat>, obj: Obj, st: State, a: nat, b: nat)
    requires Sound(data, st) && Points(p, st)
    ensures var w := Steps(data, p, obj, st, a);
            Steps(data, p, obj, st, a + b) ==
              if w.Ended? then w else Before(w.made, Steps(data, w.p, w.obj, w.st, b))
    decreases a
  {
    hide ReadOwnData, Before;
    if p.Some? {
      if a == 0 {
        BeforeNothing([], Steps(data, p, obj, st, b));
      } else {
        var d := st.descs[p.value];
        var o := ReadOwnData(data, d, obj, st);
        if o.Done? {
          StepsAdd(data, d.super, o.value.0, o.st, a - 1, b);
          var w := Steps(data, d.super, o.value.0, o.st, a - 1);
          BeforeCases(o.value.1, w);
          if w.Running? {
            BeforeAssoc(o.value.1, w.made, Steps(data, w.p, w.obj, w.st, b));
          }
        }
      }
    }
  }

  lemma BeforeCases(made: seq<Obj>, w: Walk)
    ensures w.Running? <==> Before(made, w).Running?
    ensures w.Running? ==> Before(made, w) == w.(made := made + w.made)
  {
  }

  /** No class from p on takes a byte, and the chain has no end. */
  ghost predicate Idle(descs: seq<ClassDesc>, p: Option<nat>)
    requires Chained(descs) && InRange(p, descs)
  {
    forall n: nat :: Nth(descs, p, n).Some? && !TakesAt(descs, p, n)
  }

  lemma IdleNext(descs: seq<ClassDesc>, p: Option<nat>)
    requires Chained(descs) && InRange(p, descs) && Idle(descs, p)
    ensures p.Some? && !descs[p.value].Takes() && Idle(descs, descs[p.value].super)
  {
    assert Nth(descs, p, 0).Some? && !TakesAt(descs, p, 0);
    forall n: nat
      ensures Nth(descs, descs[p.value].super, n).Some? && !TakesAt(descs, descs[p.value].super, n)
    {
      assert Nth(descs, p, n + 1).Some? && !TakesAt(descs, p, n + 1);
    }
  }

  lemma {:induction false} IdleRuns(data: seq<Byte>, p: Option<nat>, obj: Obj, st: State, n: nat)
    requires Sound(data, st) && Points(p, st) && Chained(st.descs) && Idle(st.descs, p)
    ensures Steps(data, p, obj, st, n).Running?
    decreases n
  {
    hide ReadOwnData, Before, Idle, Nth;
    IdleNext(st.descs, p);
    if n > 0 {
      IdleRuns(data, st.descs[p.value].super, obj, st, n - 1);
      BeforeCases([], Steps(data, st.descs[p.value].super, obj, st, n - 1));
    }
  }

  /** The first class from p on that takes a byte, or the end of the chain. */
  lemma {:induction false} FirstTaker(descs: seq<ClassDesc>, p: Option<nat>, n: nat) returns (i: nat)
    requires Chained(descs) && InRange(p, descs)
    requires Nth(descs, p, n).None? || TakesAt(descs, p, n)
    ensures i <= n && (Nth(descs, p, i).None? || TakesAt(descs, p, i))
    ensures forall j :: 0 <= j < i ==> Nth(descs, p, j).Some? && !TakesAt(descs, p, j)
  {
    i := 0;
    while Nth(descs, p, i).Some? && !TakesAt(descs, p, i)
      invariant i <= n && forall j :: 0 <= j < i ==> Nth(descs, p, j).Some? && !TakesAt(descs, p, j)
      decreases n - i
    {
      i := i + 1;
    }
  }

  /** While no class takes a byte, the walk moves up the chain and nothing else changes. */
  lemma {:induction false} IdleSteps(data: seq<Byte>, p: Option<nat>, obj: Obj, st: State, i: nat)
    requires Sound(data, st) && Points(p, st) && Chained(st.descs)
    requires forall j :: 0 <= j < i ==> Nth(st.descs, p, j).Some? && !TakesAt(st.descs, p, j)
    ensures var q := Nth(st.descs, p, i);
            Steps(data, p, obj, st, i) == if q.Some? then Running(q, obj, [], st) else Ended(Done((obj, []), st))
    decreases i
  {
    hide ReadOwnData, Before;
    if i > 0 {
      assert Nth(st.descs, p, 0).Some? && !TakesAt(st.descs, p, 0);
      var super := st.descs[p.value].super;
      forall j | 0 <= j < i - 1
        ensures Nth(st.descs, super, j).Some? && !TakesAt(st.descs, super, j)
      {
        assert Nth(st.descs, p, j + 1).Some? && !TakesAt(st.descs, p, j + 1);
      }
      IdleSteps(data, super, obj, st, i - 1);
      BeforeNothing([], Steps(data, super, obj, st, i - 1));
    }
  }

  /** An endless walk is endless from everywhere it comes to. */
  lemma NeverEndsOn(data: seq<Byte>, p: Option<nat>, obj: Obj, st: State, i: nat)
    requires Sound(data, st) && Points(p, st) && NeverEnds(data, p, obj, st)
    ensures var w := Steps(data, p, obj, st, i);
            w.Running? && NeverEnds(data, w.p, w.obj, w.st)
  {
    hide ReadOwnData, Before, Steps;
    var w := Steps(data, p, obj, st, i);
    assert w.Running?;
    forall n: nat
      ensures Steps(data, w.p, w.obj, w.st, n).Running?
    {
      assert Steps(data, p, obj, st, i + n).Running?;
      StepsAdd(data, p, obj, st, i, n);
      BeforeCases(w.made, Steps(data, w.p, w.obj, w.st, n));
    }
  }

  /** The step at a class that takes a byte. */
  lemma OneTaken(data: seq<Byte>, p: Option<nat>, obj: Obj, st: State)
    requires Sound(data, st) && Points(p, st) && p.Some? && st.descs[p.value].Takes()
    ensures var w := Steps(data, p, obj, st, 1);
            w.Running? ==> st.pos < w.st.pos
  {
    hide ReadOwnData, Before;
    var d := st.descs[p.value];
    var o := ReadOwnData(data, d, obj, st);
    if o.Done? {
      BeforeCases(o.value.1, Steps(data, d.super, o.value.0, o.st, 0));
    }
  }

  /** After the classes that take nothing the walk is at a class that takes a byte, and then past it. */
  lemma TakerReached(data: seq<Byte>, p: Option<nat>, obj: Obj, st: State) returns (m: nat)
    requires Sound(data, st) && Points(p, st) && NeverEnds(data, p, obj, st)
    requires Chained(st.descs) && !Idle(st.descs, p)
    ensures var w := Steps(data, p, obj, st, m);
            w.Running? && st.pos < w.st.pos
  {
    hide ReadOwnData, Before, Nth, Steps;
    var n: nat :| Nth(st.descs, p, n).None? || TakesAt(st.descs, p, n);
    var i := FirstTaker(st.descs, p, n);
    IdleSteps(data, p, obj, st, i);
    assert Steps(data, p, obj, st, i).Running?;
    var q := Nth(st.descs, p, i);
    m := i + 1;
    assert Steps(data, p, obj, st, m).Running?;
    StepsAdd(data, p, obj, st, i, 1);
    OneTaken(data, q, obj, st);
    BeforeCases([], Steps(data, q, obj, st, 1));
  }

  /** An endless walk reaches a place from which no class takes a byte. */
  lemma {:induction false} ReachesIdle(data: seq<Byte>, p: Option<nat>, obj: Obj, st: State) returns (m: nat)
    requires Sound(data, st) && Points(p, st) && NeverEnds(data, p, obj, st)
    ensures var w := Steps(data, p, obj, st, m);
            w.Running? && Chained(w.st.descs) && Idle(w.st.descs, w.p)
    decreases |data| - st.pos
  {
    hide ReadOwnData, Before, Nth, Steps, Idle, NeverEnds, Sound;
    SoundChain(data, st);
    if Idle(st.descs, p) {
      m := 0;
      IdleNext(st.descs, p);
      NoStep(data, p, obj, st);
    } else {
      var i := TakerReached(data, p, obj, st);
      NeverEndsOn(data, p, obj, st, i);
      var w := Steps(data, p, obj, st, i);
      InData(data, st, w.st);
      var m' := ReachesIdle(data, w.p, w.obj, w.st);
      m := i + m';
      StepsAdd(data, p, obj, st, i, m');
      BeforeCases(w.made, Steps(data, w.p, w.obj, w.st, m'));
    }
  }

  lemma NoStep(data: seq<Byte>, p: Option<nat>, obj: Obj, st: State)
    requires Sound(data, st) && Points(p, st) && p.Some?
    ensures Steps(data, p, obj, st, 0) == Running(p, obj, [], st)
  {
  }

  lemma InData(data: seq<Byte>, a: State, b: State)
    requires Grows(data, a, b)
    ensures a.pos <= b.pos <= |data|
  {
  }

  /**
   One walk passes classes without end if and only if it reaches a place from which the chain has no
   end and no class has a field or writes its own data.
   */
  lemma EndlessExactly(data: seq<Byte>, p: Option<nat>, obj: Obj, st: State)
    requires Sound(data, st) && Points(p, st)
    ensures NeverEnds(data, p, obj, st) <==>
            exists m: nat :: var w := Steps(data, p, obj, st, m);
              w.Running? && Chained(w.st.descs) && Idle(w.st.descs, w.p)
  {
    hide ReadOwnData, Before, Idle, Nth;
    if NeverEnds(data, p, obj, st) {
      var m := ReachesIdle(data, p, obj, st);
    }
    if m: nat :| var w := Steps(data, p, obj, st, m); w.Running? && Chained(w.st.descs) && Idle(w.st.descs, w.p) {
      var w := Steps(data, p, obj, st, m);
      forall n: nat
        ensures Steps(data, p, obj, st, n).Running?
      {
        IdleRuns(data, w.p, w.obj, w.st, n);
        StepsAdd(data, p, obj, st, m, n);
        BeforeCases(w.made, Steps(data, w.p, w.obj, w.st, n));
        StepsAdd(data, p, obj, st, n, m);
      }
    }
  }

  // Looking for cycles.

  /** From q the chain comes to p after k classes that take no byte. */
  ghost predicate IdlePath(descs: seq<ClassDesc>, q: Option<nat>, k: nat, p: Option<nat>)
    requires Chained(descs) && InRange(q, descs)
  {
    && Nth(descs, q, k) == p
    && forall j :: 0 <= j < k ==> Nth(descs, q, j).Some? && !TakesAt(descs, q, j)
  }

  /** Every class of seen comes to p without taking a byte. */
  ghost predicate Leads(descs: seq<ClassDesc>, seen: set<nat>, p: Option<nat>)
    requires Chained(descs)
  {
    forall q <- seen :: q < |descs| && exists k: nat :: k > 0 && IdlePath(descs, Some(q), k, p)
  }

  lemma {:induction false} ReturnIsIdle(descs: seq<ClassDesc>, p: Option<nat>, k: nat)
    requires Chained(descs) && InRange(p, descs) && k > 0 && IdlePath(descs, p, k, p)
    ensures Idle(descs, p)
  {
    hide Nth;
    forall n: nat
      ensures Nth(descs, p, n).Some? && !TakesAt(descs, p, n)
    {
      ReturnIsIdleAt(descs, p, k, n);
    }
  }

  lemma {:induction false} ReturnIsIdleAt(descs: seq<ClassDesc>, p: Option<nat>, k: nat, n: nat)
    requires Chained(descs) && InRange(p, descs) && k > 0 && IdlePath(descs, p, k, p)
    ensures Nth(descs, p, n).Some? && !TakesAt(descs, p, n)
    decreases n
  {
    hide Nth;
    if n >= k {
      NthPeriod(descs, p, k, n - k);
      ReturnIsIdleAt(descs, p, k, n - k);
    }
  }

  lemma LeadsOn(descs: seq<ClassDesc>, seen: set<nat>, c: nat)
    requires Chained(descs) && c < |descs| && Leads(descs, seen, Some(c)) && !descs[c].Takes()
    ensures Leads(descs, seen + {c}, descs[c].super)
  {
    var super := descs[c].super;
    assert Nth(descs, Some(c), 1) == Nth(descs, super, 0) == super;
    forall q <- seen + {c}
      ensures q < |descs| && exists k: nat :: k > 0 && IdlePath(descs, Some(q), k, super)
    {
      if q == c {
        assert IdlePath(descs, Some(c), 1, super);
      } else {
        var k: nat :| k > 0 && IdlePath(descs, Some(q), k, Some(c));
        NthAdd(descs, Some(q), k, 1);
        assert IdlePath(descs, Some(q), k + 1, super);
      }
    }
  }

  lemma LeadsFrom(descs: seq<ClassDesc>, seen: set<nat>, c: nat)
    requires Chained(descs) && Leads(descs, seen, Some(c)) && c in seen
    ensures c < |descs| && Idle(descs, Some(c))
  {
    hide Nth, Idle;
    var k: nat :| k > 0 && IdlePath(descs, Some(c), k, Some(c));
    ReturnIsIdle(descs, Some(c), k);
  }

  lemma {:induction false} DetectedFrom(data: seq<Byte>, p: Option<nat>, seen: set<nat>, obj: Obj, st: State, n: nat)
    requires Sound(data, st) && Points(p, st) && Chained(st.descs) && Leads(st.descs, seen, p)
    ensures var w := Steps(data, p, obj, st, n);
            w.Ended? ==> w.r == ReadClassData(data, p, seen, obj, st)
    decreases n
  {
    hide ReadOwnData, Leads, Idle, Nth, Sound;
    if p.Some? && n > 0 {
      var c := p.value;
      var d := st.descs[c];
      if c in seen {
        LeadsFrom(st.descs, seen, c);
        IdleRuns(data, p, obj, st, n);
      } else {
        var o := ReadOwnData(data, d, obj, st);
        if o.Done? {
          SoundChain(data, o.st);
          if d.Takes() {
            NothingLeads(o.st.descs, d.super);
            DetectedFrom(data, d.super, {}, o.value.0, o.st, n - 1);
          } else {
            LeadsOn(st.descs, seen, c);
            DetectedFrom(data, d.super, seen + {c}, o.value.0, o.st, n - 1);
          }
        }
      }
    }
  }

  lemma NothingLeads(descs: seq<ClassDesc>, p: Option<nat>)
    requires Chained(descs)
    ensures Leads(descs, {}, p)
  {
  }

  lemma {:induction false} EndsUnlessEndless(data: seq<Byte>, p: Option<nat>, seen: set<nat>, obj: Obj, st: State)
    returns (n: nat)
    requires Sound(data, st) && Points(p, st) && !ReadClassData(data, p, seen, obj, st).Endless?
    ensures Steps(data, p, obj, st, n).Ended?
    decreases |data| - st.pos, Indices(|st.descs|) - seen
  {
    hide ReadOwnData, Before;
    n := 0;
    if p.Some? {
      var d := st.descs[p.value];
      var o := ReadOwnData(data, d, obj, st);
      n := 1;
      if o.Done? {
        var m := EndsUnlessEndless(data, d.super, if d.Takes() then {} else seen + {p.value}, o.value.0, o.st);
        BeforeCases(o.value.1, Steps(data, d.super, o.value.0, o.st, m));
        n := m + 1;
      }
    }
  }

  /**
   In one walk looking for cycles changes nothing: where the walk ends the result is the same, and
   where it never ends the result says so.
   */
  lemma DetectionIsExact(data: seq<Byte>, p: Option<nat>, obj: Obj, st: State)
    requires Sound(data, st) && Points(p, st)
    ensures forall n: nat :: Steps(data, p, obj, st, n).Ended? ==>
              Steps(data, p, obj, st, n).r == ReadClassData(data, p, {}, obj, st)
    ensures NeverEnds(data, p, obj, st) ==> ReadClassData(data, p, {}, obj, st).Endless?
  {
    hide ReadClassData, Steps;
    SoundChain(data, st);
    NothingLeads(st.descs, p);
    forall n: nat
      ensures Steps(data, p, obj, st, n).Ended? ==>
                Steps(data, p, obj, st, n).r == ReadClassData(data, p, {}, obj, st)
    {
      DetectedFrom(data, p, {}, obj, st, n);
    }
    if !ReadClassData(data, p, {}, obj, st).Endless? {
      var n := EndsUnlessEndless(data, p, {}, obj, st);
      assert !Steps(data, p, obj, st, n).Running?;
    }
  }

  // Cycles.

  lemma {:induction false} NthLaps(descs: seq<ClassDesc>, p: Option<nat>, k: nat, laps: nat, n: nat)
    requires Chained(descs) && InRange(p, descs) && Nth(descs, p, k) == p
    ensures Nth(descs, p, laps * k + n) == Nth(descs, p, n)
    decreases laps
  {
    hide Nth;
    if laps > 0 {
      NthLaps(descs, p, k, laps - 1, n);
      assert laps * k + n == k + ((laps - 1) * k + n);
      NthPeriod(descs, p, k, (laps - 1) * k + n);
    }
  }

  /** A cycle comes to its i-th class again after any number m of steps. */
  lemma CycleAhead(descs: seq<ClassDesc>, p: Option<nat>, k: nat, m: nat, i: nat) returns (j: nat)
    requires Chained(descs) && InRange(p, descs) && k > 0 && Nth(descs, p, k) == p
    ensures Nth(descs, Nth(descs, p, m), j) == Nth(descs, p, i)
  {
    hide Nth;
    assert m * k >= m;
    j := m * k - m + i;
    NthLaps(descs, p, k, m, i);
    NthAdd(descs, p, m, j);
  }

  lemma {:induction false} StepsPlace(data: seq<Byte>, p: Option<nat>, obj: Obj, st: State, n: nat)
    requires Sound(data, st) && Points(p, st) && Chained(st.descs)
    ensures var w := Steps(data, p, obj, st, n);
            && (w.Running? ==> Nth(st.descs, p, n) == w.p)
            && (w.Ended? && w.r.Done? ==> Nth(st.descs, p, n).None?)
    decreases n
  {
    hide ReadOwnData, Before;
    if p.Some? && n > 0 {
      var d := st.descs[p.value];
      var o := ReadOwnData(data, d, obj, st);
      if o.Done? {
        SoundChain(data, o.st);
        StepsPlace(data, d.super, o.value.0, o.st, n - 1);
        NthPrefix(st.descs, o.st.descs, d.super, n - 1);
        BeforeDone(o.value.1, Steps(data, d.super, o.value.0, o.st, n - 1));
      }
    }
  }

  lemma BeforeDone(made: seq<Obj>, w: Walk)
    ensures Before(made, w).Running? <==> w.Running?
    ensures w.Running? ==> Before(made, w).p == w.p
    ensures w.Ended? ==> (Before(made, w).r.Done? <==> w.r.Done?)
  {
  }

  /**
   On a cycle of descriptors reading never succeeds, and one walk passes classes without end, on
   whatever bytes, if and only if no class of the cycle has a field or writes its own data.
   */
  lemma CycleWalkExactly(data: seq<Byte>, p: Option<nat>, obj: Obj, st: State, k: nat)
    requires Sound(data, st) && Points(p, st) && Chained(st.descs)
    requires p.Some? && k > 0 && Nth(st.descs, p, k) == p
    ensures (exists i: nat :: TakesAt(st.descs, p, i)) <==> !NeverEnds(data, p, obj, st)
    ensures !ReadClassData(data, p, {}, obj, st).Done?
  {
    hide Nth, Steps, ReadClassData, Idle;
    forall i: nat
      ensures Nth(st.descs, p, i).Some?
    {
      var j := CycleAhead(st.descs, p, k, i, 0);
      NthNone(st.descs, p, i, j);
    }
    if i: nat :| TakesAt(st.descs, p, i) {
      if NeverEnds(data, p, obj, st) {
        EndlessExactly(data, p, obj, st);
        var m: nat :| var w := Steps(data, p, obj, st, m); w.Running? && Chained(w.st.descs) && Idle(w.st.descs, w.p);
        TakerAhead(data, p, obj, st, k, m, i);
      }
    } else {
      IdleWhenNoneTakes(st.descs, p);
      forall n: nat
        ensures Steps(data, p, obj, st, n).Running?
      {
        IdleRuns(data, p, obj, st, n);
      }
    }
    if ReadClassData(data, p, {}, obj, st).Done? {
      var n := EndsUnlessEndless(data, p, {}, obj, st);
      DetectionIsExact(data, p, obj, st);
      StepsPlace(data, p, obj, st, n);
    }
  }

  lemma NthNone(descs: seq<ClassDesc>, p: Option<nat>, i: nat, j: nat)
    requires Chained(descs) && InRange(p, descs)
    requires Nth(descs, Nth(descs, p, i), j) == Nth(descs, p, 0) && p.Some?
    ensures Nth(descs, p, i).Some?
  {
  }

  lemma IdleWhenNoneTakes(descs: seq<ClassDesc>, p: Option<nat>)
    requires Chained(descs) && InRange(p, descs)
    requires forall i: nat :: Nth(descs, p, i).Some?
    requires forall i: nat :: !TakesAt(descs, p, i)
    ensures Idle(descs, p)
  {
  }

  /** Wherever a walk on a cycle is, a class that takes a byte is still ahead. */
  lemma TakerAhead(data: seq<Byte>, p: Option<nat>, obj: Obj, st: State, k: nat, m: nat, i: nat)
    requires Sound(data, st) && Points(p, st) && Chained(st.descs)
    requires k > 0 && Nth(st.descs, p, k) == p && TakesAt(st.descs, p, i)
    requires Steps(data, p, obj, st, m).Running?
    ensures var w := Steps(data, p, obj, st, m);
            Chained(w.st.descs) && !Idle(w.st.descs, w.p)
  {
    hide Nth, Steps;
    var w := Steps(data, p, obj, st, m);
    SoundChain(data, w.st);
    StepsPlace(data, p, obj, st, m);
    var j := CycleAhead(st.descs, p, k, m, i);
    NthPrefix(st.descs, w.st.descs, w.p, j);
    assert TakesAt(w.st.descs, w.p, j);
  }
}
