/**
 What the two paths over class data have in common, and what the top level keeps
 (dubboport/java_deserializer.go).
 */
module JavaTheorems {
  import opened Wrappers
  import opened Bytes
  import opened Seqs
  import opened JavaStream
  import opened JavaChains

  /** The ten type codes that a field descriptor may carry. */
  predicate LegalCode(code: Byte) {
    IsPrimitive(code) || IsReference(code)
  }

  predicate LegalFields(fields: seq<FieldInfo>) {
    forall i :: 0 <= i < |fields| ==> LegalCode(fields[i].typeCode)
  }

  ghost predicate LegalAt(descs: seq<ClassDesc>, p: Option<nat>, n: nat)
    requires Chained(descs) && InRange(p, descs)
  {
    Nth(descs, p, n).Some? ==> LegalFields(descs[Nth(descs, p, n).value].fields)
  }

  /** All type codes of the chain are legal, whether or not it has an end. */
  ghost predicate Legal(descs: seq<ClassDesc>, p: Option<nat>)
    requires Chained(descs) && InRange(p, descs)
  {
    forall n: nat :: LegalAt(descs, p, n)
  }

  /** Reading fills an object and skipping does not; all else must be the same. */
  ghost predicate Agree<T>(r: Outcome<(T, seq<Obj>)>, s: Outcome<seq<Obj>>) {
    match r
    case Done(v, st) => s == Done(v.1, st)
    case Failed => s.Failed?
    case Panicked => s.Panicked?
    case Endless => s.Endless?
  }

  lemma FieldAgrees(data: seq<Byte>, code: Byte, st: State)
    requires Sound(data, st) && LegalCode(code)
    ensures Agree(ReadFieldValue(data, code, st), SkipField(data, code, st))
  {
    hide ReadPrimitive, ReadContent;
  }

  lemma {:induction false} FieldsAgree(data: seq<Byte>, fields: seq<FieldInfo>, obj: Obj, st: State)
    requires Sound(data, st) && LegalFields(fields)
    ensures Agree(ReadFields(data, fields, obj, st), SkipFields(data, fields, st))
    decreases |fields|
  {
    hide ReadFieldValue, SkipField, LegalCode;
    if fields != [] {
      FieldAgrees(data, fields[0].typeCode, st);
      var v := ReadFieldValue(data, fields[0].typeCode, st);
      if v.Done? {
        FieldsAgree(data, fields[1..], SetField(obj, fields[0].name, v.value.0), v.st);
      }
    }
  }

  lemma OwnDataAgrees(data: seq<Byte>, d: ClassDesc, obj: Obj, st: State)
    requires Sound(data, st) && LegalFields(d.fields)
    ensures Agree(ReadOwnData(data, d, obj, st), SkipOwnData(data, d, st))
  {
    hide ReadFields, SkipFields, SkipAnnotation, LegalFields;
    FieldsAgree(data, d.fields, obj, st);
  }

  /** Legality is that of the first class and of the chain above it, and lasts. */
  lemma LegalUp(data: seq<Byte>, st: State, c: nat, next: State)
    requires Sound(data, st) && Sound(data, next) && c < |st.descs| && st.descs <= next.descs
    requires Chained(st.descs) && Legal(st.descs, Some(c))
    ensures LegalFields(st.descs[c].fields)
    ensures Chained(next.descs) && Legal(next.descs, st.descs[c].super)
  {
    hide LegalFields;
    assert LegalAt(st.descs, Some(c), 0);
    SoundChain(data, next);
    forall n: nat
      ensures LegalAt(next.descs, st.descs[c].super, n)
    {
      assert LegalAt(st.descs, Some(c), n + 1);
      NthPrefix(st.descs, next.descs, st.descs[c].super, n);
    }
  }

  lemma AgreeHere(data: seq<Byte>, p: Option<nat>, seen: set<nat>, obj: Obj, st: State)
    requires Sound(data, st) && Points(p, st) && (p.Some? ==> p.value in seen)
    ensures Agree(ReadClassData(data, p, seen, obj, st), SkipClassData(data, p, seen, st))
  {
  }

  /** Both paths agree if they agree on the first class and from there on. */
  lemma AgreeStep(data: seq<Byte>, c: nat, seen: set<nat>, obj: Obj, st: State)
    requires Sound(data, st) && c < |st.descs| && c !in seen
    requires Agree(ReadOwnData(data, st.descs[c], obj, st), SkipOwnData(data, st.descs[c], st))
    requires var d, o := st.descs[c], ReadOwnData(data, st.descs[c], obj, st);
             var next := if d.Takes() then {} else seen + {c};
             o.Done? ==> Points(d.super, o.st)
                         && Agree(ReadClassData(data, d.super, next, o.value.0, o.st),
                                  SkipClassData(data, d.super, next, o.st))
    ensures Agree(ReadClassData(data, Some(c), seen, obj, st), SkipClassData(data, Some(c), seen, st))
  {
    hide ReadOwnData, SkipOwnData, Sound;
  }

  /**
   On legal chains the skipping path succeeds, fails, panics and goes on without end exactly when
   the reading path does, and ends at the same cursor, handle table, descriptors and objects.
   */
  lemma {:induction false} ClassDataAgrees(data: seq<Byte>, p: Option<nat>, seen: set<nat>, obj: Obj, st: State)
    requires Sound(data, st) && Points(p, st) && Chained(st.descs) && Legal(st.descs, p)
    ensures Agree(ReadClassData(data, p, seen, obj, st), SkipClassData(data, p, seen, st))
    decreases |data| - st.pos, Indices(|st.descs|) - seen
  {
    hide ReadOwnData, SkipOwnData, Legal, LegalFields, Nth, ReadClassData, SkipClassData, Agree;
    if p.None? || p.value in seen {
      AgreeHere(data, p, seen, obj, st);
    } else {
      var d := st.descs[p.value];
      LegalUp(data, st, p.value, st);
      OwnDataAgrees(data, d, obj, st);
      var o := ReadOwnData(data, d, obj, st);
      if o.Done? {
        LegalUp(data, st, p.value, o.st);
        ClassDataAgrees(data, d.super, if d.Takes() then {} else seen + {p.value}, o.value.0, o.st);
      }
      AgreeStep(data, p.value, seen, obj, st);
    }
  }

  // A chain with any other type code always has bytes on which the two paths part.

  /** Bytes that the skipping path accepts for a field: zeros, or a null. */
  function Filler(code: Byte): (b: seq<Byte>)
    ensures b != [] && b[0] in {0, TC_NULL}
  {
    if IsPrimitive(code) then seq(Width(code), i => 0) else [TC_NULL]
  }

  function FieldFillers(fields: seq<FieldInfo>): seq<Byte> {
    if fields == [] then [] else Filler(fields[0].typeCode) + FieldFillers(fields[1..])
  }

  /** A long string that is longer than the cursor can count. */
  const TOO_LONG: seq<Byte> := [TC_LONGSTRING] + PutBe(MAX_INT, 8)

  /** Fillers up to the first illegal field, and there a content that panics. */
  function Trap(fields: seq<FieldInfo>): seq<Byte> {
    if fields == [] then []
    else if !LegalCode(fields[0].typeCode) then TOO_LONG
    else Filler(fields[0].typeCode) + Trap(fields[1..])
  }

  function End(d: ClassDesc): seq<Byte> {
    if d.HasWriteMethod() then [TC_ENDBLOCKDATA] else []
  }

  /** What the first n classes of a chain skip over, then the trap of the class after them. */
  ghost function TrapAfter(descs: seq<ClassDesc>, p: Option<nat>, n: nat): seq<Byte>
    requires Chained(descs) && InRange(p, descs)
    decreases n
  {
    if p.None? then []
    else
      var d := descs[p.value];
      if n == 0 then Trap(d.fields) else FieldFillers(d.fields) + (End(d) + TrapAfter(descs, d.super, n - 1))
  }

  /** What the whole of a chain of n classes skips over. */
  ghost function Fillers(descs: seq<ClassDesc>, p: Option<nat>, n: nat): seq<Byte>
    requires Chained(descs) && InRange(p, descs)
    decreases n
  {
    if p.None? || n == 0 then []
    else FieldFillers(descs[p.value].fields) + (End(descs[p.value]) + Fillers(descs, descs[p.value].super, n - 1))
  }

  lemma FillerSkips(data: seq<Byte>, code: Byte, st: State)
    requires Sound(data, st) && HasAt(data, st.pos, Filler(code))
    ensures SkipField(data, code, st) == Done([], st.Skip(|Filler(code)|))
    ensures !LegalCode(code) ==> ReadFieldValue(data, code, st).Failed?
  {
    if !IsPrimitive(code) {
      assert data[st.pos] == data[st.pos..st.pos + 1][0];
    }
  }

  lemma TooLongPanics(data: seq<Byte>, code: Byte, st: State)
    requires Sound(data, st) && HasAt(data, st.pos, TOO_LONG) && !LegalCode(code)
    ensures SkipField(data, code, st).Panicked? && ReadFieldValue(data, code, st).Failed?
  {
    hide Be, PutBe, Pow256;
    assert data[st.pos] == data[st.pos..st.pos + 9][0];
    assert data[st.pos + 1..st.pos + 9] == TOO_LONG[1..] == PutBe(MAX_INT, 8);
    PowersOf256();
    BePutBe(MAX_INT, 8);
  }

  lemma {:induction false} FieldFillersSkip(data: seq<Byte>, fields: seq<FieldInfo>, obj: Obj, st: State)
    requires Sound(data, st) && HasAt(data, st.pos, FieldFillers(fields))
    ensures SkipFields(data, fields, st) == Done([], st.Skip(|FieldFillers(fields)|))
    ensures !LegalFields(fields) ==> ReadFields(data, fields, obj, st).Failed?
    decreases |fields|
  {
    hide ReadFieldValue, SkipField, Filler, LegalCode, HasAt;
    if fields != [] {
      var code, rest := fields[0].typeCode, fields[1..];
      HasParts(data, st.pos, Filler(code), FieldFillers(rest));
      FillerSkips(data, code, st);
      var next := st.Skip(|Filler(code)|);
      if LegalCode(code) {
        FieldAgrees(data, code, st);
        var v := ReadFieldValue(data, code, st);
        FieldFillersSkip(data, rest, SetField(obj, fields[0].name, v.value.0), next);
        assert LegalFields(rest) ==> LegalFields(fields);
      } else {
        FieldFillersSkip(data, rest, obj, next);
      }
    }
  }

  lemma {:induction false} TrapParts(data: seq<Byte>, fields: seq<FieldInfo>, obj: Obj, st: State)
    requires Sound(data, st) && HasAt(data, st.pos, Trap(fields)) && !LegalFields(fields)
    ensures SkipFields(data, fields, st).Panicked? && ReadFields(data, fields, obj, st).Failed?
    ensures Trap(fields) != [] && Trap(fields)[0] in {0, TC_NULL, TC_LONGSTRING}
    decreases |fields|
  {
    hide ReadFieldValue, SkipField, Filler, LegalCode, HasAt;
    var code, rest := fields[0].typeCode, fields[1..];
    if LegalCode(code) {
      HasParts(data, st.pos, Filler(code), Trap(rest));
      FillerSkips(data, code, st);
      FieldAgrees(data, code, st);
      var v := ReadFieldValue(data, code, st);
      TrapParts(data, rest, SetField(obj, fields[0].name, v.value.0), st.Skip(|Filler(code)|));
    } else {
      TooLongPanics(data, code, st);
    }
  }

  lemma EndSkips(data: seq<Byte>, d: ClassDesc, st: State)
    requires Sound(data, st) && HasAt(data, st.pos, End(d))
    ensures SkipWritten(data, d, st) == Done((), st.Skip(|End(d)|))
  {
    if d.HasWriteMethod() {
      assert data[st.pos] == data[st.pos..st.pos + 1][0];
    }
  }

  lemma NotAtBlock(data: seq<Byte>, st: State, b: seq<Byte>)
    requires HasAt(data, st.pos, b) && b != [] && b[0] in {0, TC_NULL, TC_LONGSTRING, TC_ENDBLOCKDATA}
    ensures !AtBlock(data, st)
  {
    assert data[st.pos] == data[st.pos..st.pos + |b|][0];
  }

  /** What one class skips over; on it the reading path fails unless all codes are legal. */
  lemma OwnFillersSkip(data: seq<Byte>, d: ClassDesc, obj: Obj, st: State, more: seq<Byte>)
    requires Sound(data, st) && HasAt(data, st.pos, FieldFillers(d.fields) + (End(d) + more))
    ensures var next := st.Skip(|FieldFillers(d.fields)| + |End(d)|);
            && SkipOwnData(data, d, st) == Done([], next)
            && (!LegalFields(d.fields) ==> ReadOwnData(data, d, obj, st).Failed?)
            && HasAt(data, next.pos, more)
  {
    hide ReadFields, SkipFields, SkipWritten, SkipAnnotation, LegalFields, HasAt, AtBlock;
    HasParts(data, st.pos, FieldFillers(d.fields), End(d) + more);
    FieldFillersSkip(data, d.fields, obj, st);
    var f := st.Skip(|FieldFillers(d.fields)|);
    HasParts(data, f.pos, End(d), more);
    EndSkips(data, d, f);
    if d.HasWriteMethod() {
      if d.fields == [] {
        NotAtBlock(data, st, End(d));
      } else {
        NotAtBlock(data, st, FieldFillers(d.fields));
      }
    }
  }

  lemma OwnTrapParts(data: seq<Byte>, d: ClassDesc, obj: Obj, st: State)
    requires Sound(data, st) && HasAt(data, st.pos, Trap(d.fields)) && !LegalFields(d.fields)
    ensures SkipOwnData(data, d, st).Panicked? && ReadOwnData(data, d, obj, st).Failed?
  {
    hide ReadFields, SkipFields, SkipWritten, SkipAnnotation, LegalFields, HasAt, AtBlock;
    TrapParts(data, d.fields, obj, st);
    NotAtBlock(data, st, Trap(d.fields));
  }

  /** The first n classes come back to none of seen, and not to p. */
  ghost predicate Fresh(descs: seq<ClassDesc>, p: Option<nat>, n: nat, seen: set<nat>)
    requires Chained(descs) && InRange(p, descs)
  {
    forall i :: 0 <= i <= n && Nth(descs, p, i).Some? ==>
      && Nth(descs, p, i).value !in seen
      && forall j :: 0 <= j < i ==> Nth(descs, p, j) != Nth(descs, p, i)
  }

  lemma FreshUp(descs: seq<ClassDesc>, c: nat, n: nat, seen: set<nat>, next: set<nat>)
    requires Chained(descs) && c < |descs| && n > 0 && Fresh(descs, Some(c), n, seen) && next <= seen + {c}
    ensures c !in seen && Fresh(descs, descs[c].super, n - 1, next)
  {
    var super := descs[c].super;
    assert Nth(descs, Some(c), 0).Some?;
    forall i | 0 <= i <= n - 1 && Nth(descs, super, i).Some?
      ensures Nth(descs, super, i).value !in next
      ensures forall j :: 0 <= j < i ==> Nth(descs, super, j) != Nth(descs, super, i)
    {
      assert Nth(descs, Some(c), i + 1) == Nth(descs, super, i);
      assert Nth(descs, Some(c), 0) != Nth(descs, Some(c), i + 1);
      forall j | 0 <= j < i
        ensures Nth(descs, super, j) != Nth(descs, super, i)
      {
        assert Nth(descs, Some(c), j + 1) == Nth(descs, super, j);
      }
    }
  }

  /** Before the first illegal class no class comes twice. */
  lemma FirstIsFresh(descs: seq<ClassDesc>, p: Option<nat>, n: nat)
    requires Chained(descs) && InRange(p, descs)
    requires forall i :: 0 <= i < n ==> LegalAt(descs, p, i)
    requires !LegalAt(descs, p, n)
    ensures Fresh(descs, p, n, {})
  {
    hide Nth, LegalFields;
    forall i, j | 0 <= j < i <= n
      ensures Nth(descs, p, j) != Nth(descs, p, i)
    {
      NthAdd(descs, p, i, n - i);
      NthAdd(descs, p, j, n - i);
      assert LegalAt(descs, p, j + (n - i));
    }
  }

  /** No class of a chain that ends comes twice. */
  lemma EndingIsFresh(descs: seq<ClassDesc>, p: Option<nat>, n: nat)
    requires Chained(descs) && InRange(p, descs) && Nth(descs, p, n).None?
    requires forall i :: 0 <= i < n ==> Nth(descs, p, i).Some?
    ensures Fresh(descs, p, n, {})
  {
    hide Nth;
    forall i, j | 0 <= j < i <= n
      ensures Nth(descs, p, j) != Nth(descs, p, i)
    {
      NthAdd(descs, p, i, n - i);
      NthAdd(descs, p, j, n - i);
      assert Nth(descs, p, j + (n - i)).Some?;
    }
  }

  /** Chains that end: there are bytes that the skipping path accepts and, if a code is illegal, reading does not. */
  lemma {:induction false} FillersSkip(data: seq<Byte>, p: Option<nat>, n: nat, seen: set<nat>, obj: Obj, st: State)
    requires Sound(data, st) && Points(p, st) && Chained(st.descs)
    requires Nth(st.descs, p, n).None? && Fresh(st.descs, p, n, seen)
    requires HasAt(data, st.pos, Fillers(st.descs, p, n))
    ensures SkipClassData(data, p, seen, st) == Done([], st.Skip(|Fillers(st.descs, p, n)|))
    ensures !Legal(st.descs, p) ==> ReadClassData(data, p, seen, obj, st).Failed?
    decreases n
  {
    hide ReadOwnData, SkipOwnData, FieldFillers, Fresh, HasAt, Legal, LegalFields, End;
    if p.None? {
      NoneIsLegal(st.descs, p);
    } else {
      var d, next := st.descs[p.value], if st.descs[p.value].Takes() then {} else seen + {p.value};
      FreshUp(st.descs, p.value, n, seen, next);
      var more := Fillers(st.descs, d.super, n - 1);
      OwnFillersSkip(data, d, obj, st, more);
      var st' := st.Skip(|FieldFillers(d.fields)| + |End(d)|);
      OwnLegalAgrees(data, d, obj, st);
      var o := ReadOwnData(data, d, obj, st);
      FillersSkip(data, d.super, n - 1, next, if o.Done? then o.value.0 else obj, st');
      LegalDown(st.descs, p.value);
    }
  }

  /** On a chain of n classes that ends the skipping path gets through its fillers, the reading path only if it is legal. */
  lemma FillersAccepted(descs: seq<ClassDesc>, p: Option<nat>, n: nat)
    requires Chained(descs) && InRange(p, descs) && Nth(descs, p, n).None?
    requires forall i :: 0 <= i < n ==> Nth(descs, p, i).Some?
    ensures var data, st := Fillers(descs, p, n), State(0, [], descs, 0);
            && Sound(data, st)
            && SkipClassData(data, p, {}, st) == Done([], st.Skip(|data|))
            && (Legal(descs, p) <==> ReadClassData(data, p, {}, map[], st).Done?)
  {
    hide ReadClassData, SkipClassData, Legal, Fresh, Fillers, Nth;
    var data, st := Fillers(descs, p, n), State(0, [], descs, 0);
    EndingIsFresh(descs, p, n);
    assert data[0..0 + |data|] == data;
    FillersSkip(data, p, n, {}, map[], st);
    if Legal(descs, p) {
      ClassDataAgrees(data, p, {}, map[], st);
    }
  }

  lemma OwnLegalAgrees(data: seq<Byte>, d: ClassDesc, obj: Obj, st: State)
    requires Sound(data, st)
    ensures LegalFields(d.fields) ==> Agree(ReadOwnData(data, d, obj, st), SkipOwnData(data, d, st))
  {
    if LegalFields(d.fields) {
      OwnDataAgrees(data, d, obj, st);
    }
  }

  lemma NoneIsLegal(descs: seq<ClassDesc>, p: Option<nat>)
    requires Chained(descs) && p.None?
    ensures Legal(descs, p)
  {
  }

  lemma LegalDown(descs: seq<ClassDesc>, c: nat)
    requires Chained(descs) && c < |descs|
    ensures LegalFields(descs[c].fields) && Legal(descs, descs[c].super) ==> Legal(descs, Some(c))
  {
    hide LegalFields;
    if LegalFields(descs[c].fields) && Legal(descs, descs[c].super) {
      forall n: nat
        ensures LegalAt(descs, Some(c), n)
      {
        assert n > 0 ==> LegalAt(descs, descs[c].super, n - 1);
      }
    }
  }

  /** Any chain: where the first illegal class is the n-th, reading fails on bytes on which skipping panics. */
  lemma {:induction false} PathsPart(data: seq<Byte>, p: Option<nat>, n: nat, seen: set<nat>, obj: Obj, st: State)
    requires Sound(data, st) && Points(p, st) && Chained(st.descs) && Fresh(st.descs, p, n, seen)
    requires !LegalAt(st.descs, p, n) && forall i :: 0 <= i < n ==> LegalAt(st.descs, p, i)
    requires HasAt(data, st.pos, TrapAfter(st.descs, p, n))
    ensures ReadClassData(data, p, seen, obj, st).Failed? && SkipClassData(data, p, seen, st).Panicked?
    decreases n
  {
    hide ReadOwnData, SkipOwnData, FieldFillers, Trap, Fresh, HasAt, LegalFields, End;
    var d := st.descs[p.value];
    FreshHead(st.descs, p.value, n, seen);
    if n == 0 {
      OwnTrapParts(data, d, obj, st);
    } else {
      var next := if d.Takes() then {} else seen + {p.value};
      FreshUp(st.descs, p.value, n, seen, next);
      OwnFillersSkip(data, d, obj, st, TrapAfter(st.descs, d.super, n - 1));
      assert LegalAt(st.descs, p, 0);
      OwnDataAgrees(data, d, obj, st);
      var o := ReadOwnData(data, d, obj, st);
      LegalShift(st.descs, p.value, n);
      PathsPart(data, d.super, n - 1, next, o.value.0, o.st);
    }
  }

  lemma FreshHead(descs: seq<ClassDesc>, c: nat, n: nat, seen: set<nat>)
    requires Chained(descs) && c < |descs| && Fresh(descs, Some(c), n, seen)
    ensures c !in seen
  {
    assert Nth(descs, Some(c), 0).Some?;
  }

  lemma LegalShift(descs: seq<ClassDesc>, c: nat, n: nat)
    requires Chained(descs) && c < |descs| && n > 0
    requires !LegalAt(descs, Some(c), n) && forall i :: 0 <= i < n ==> LegalAt(descs, Some(c), i)
    ensures !LegalAt(descs, descs[c].super, n - 1)
    ensures forall i :: 0 <= i < n - 1 ==> LegalAt(descs, descs[c].super, i)
  {
    hide LegalFields;
    forall i | 0 <= i < n - 1
      ensures LegalAt(descs, descs[c].super, i)
    {
      assert LegalAt(descs, Some(c), i + 1);
    }
  }

  lemma FirstIllegal(descs: seq<ClassDesc>, p: Option<nat>) returns (n: nat)
    requires Chained(descs) && InRange(p, descs) && !Legal(descs, p)
    ensures !LegalAt(descs, p, n) && forall i :: 0 <= i < n ==> LegalAt(descs, p, i)
  {
    hide LegalAt;
    var m: nat :| !LegalAt(descs, p, m);
    n := 0;
    while LegalAt(descs, p, n)
      invariant n <= m && forall i :: 0 <= i < n ==> LegalAt(descs, p, i)
      decreases m - n
    {
      n := n + 1;
    }
  }

  /** The two paths agree on all data exactly on the legal chains, cyclic ones included. */
  lemma AgreementExactly(descs: seq<ClassDesc>, p: Option<nat>)
    requires Chained(descs) && InRange(p, descs)
    ensures Legal(descs, p) <==>
            forall data, obj, st: State :: Sound(data, st) && st.descs == descs ==>
              Agree(ReadClassData(data, p, {}, obj, st), SkipClassData(data, p, {}, st))
  {
    hide ReadClassData, SkipClassData, Legal, LegalAt, Fresh, TrapAfter;
    if Legal(descs, p) {
      forall data, obj, st: State | Sound(data, st) && st.descs == descs
        ensures Agree(ReadClassData(data, p, {}, obj, st), SkipClassData(data, p, {}, st))
      {
        ClassDataAgrees(data, p, {}, obj, st);
      }
    } else {
      var n := FirstIllegal(descs, p);
      FirstIsFresh(descs, p, n);
      var data, st := TrapAfter(descs, p, n), State(0, [], descs, 0);
      assert data[0..0 + |data|] == data;
      assert Sound(data, st) && HasAt(data, st.pos, data);
      PathsPart(data, p, n, {}, map[], st);
      assert !Agree(ReadClassData(data, p, {}, map[], st), SkipClassData(data, p, {}, st));
    }
  }

  // Which values an object gets.

  /** A name read before, from a more derived class, keeps its value. */
  lemma {:induction false} FieldsKeep(data: seq<Byte>, fields: seq<FieldInfo>, obj: Obj, st: State)
    requires Sound(data, st)
    ensures var r := ReadFields(data, fields, obj, st);
            r.Done? ==>
              && r.value.0.Keys == obj.Keys + (set i | 0 <= i < |fields| :: fields[i].name)
              && forall k <- obj :: r.value.0[k] == obj[k]
    decreases |fields|
  {
    hide ReadFieldValue;
    if fields != [] {
      var v := ReadFieldValue(data, fields[0].typeCode, st);
      if v.Done? {
        FieldsKeep(data, fields[1..], SetField(obj, fields[0].name, v.value.0), v.st);
        NamesCons(fields);
      }
    }
  }

  lemma NamesCons(fields: seq<FieldInfo>)
    requires fields != []
    ensures (set i | 0 <= i < |fields| :: fields[i].name)
            == {fields[0].name} + set i | 0 <= i < |fields[1..]| :: fields[1..][i].name
  {
    forall i | 0 <= i < |fields|
      ensures fields[i].name in {fields[0].name} + set i | 0 <= i < |fields[1..]| :: fields[1..][i].name
    {
      if i > 0 {
        assert fields[1..][i - 1] == fields[i];
      }
    }
  }

  lemma {:induction false} ClassDataKeeps(data: seq<Byte>, p: Option<nat>, seen: set<nat>, obj: Obj, st: State)
    requires Sound(data, st) && Points(p, st)
    ensures var r := ReadClassData(data, p, seen, obj, st);
            r.Done? ==> forall k <- obj :: k in r.value.0 && r.value.0[k] == obj[k]
    decreases |data| - st.pos, Indices(|st.descs|) - seen
  {
    hide ReadOwnData;
    if p.Some? && p.value !in seen {
      var d := st.descs[p.value];
      OwnDataKeeps(data, d, obj, st);
      var o := ReadOwnData(data, d, obj, st);
      if o.Done? {
        ClassDataKeeps(data, d.super, if d.Takes() then {} else seen + {p.value}, o.value.0, o.st);
      }
    }
  }

  lemma OwnDataKeeps(data: seq<Byte>, d: ClassDesc, obj: Obj, st: State)
    requires Sound(data, st)
    ensures var r := ReadOwnData(data, d, obj, st);
            r.Done? ==> forall k <- obj :: k in r.value.0 && r.value.0[k] == obj[k]
  {
    hide ReadFields, SkipAnnotation, SkipWritten;
    FieldsKeep(data, d.fields, obj, st);
  }

  /** At the top level the value of a name is the first one the stream gives it. */
  lemma {:induction false} ReadAllKeeps(data: seq<Byte>, st: State, objects: seq<Obj>, result: Obj)
    requires Sound(data, st) && st.objects == |objects|
    ensures var r := ReadAll(data, st, objects, result);
            && (r.Args? ==> forall k <- result :: k in r.values && r.values[k] == result[k])
            && (r.NoArgs? ==> result == map[])
    decreases |data| - st.pos
  {
    hide ReadContent, AsMap;
    if st.pos < |data| {
      if data[st.pos] == TC_ENDBLOCKDATA {
        ReadAllKeeps(data, st.Skip(1), objects, result);
      } else if data[st.pos] == TC_RESET {
        ReadAllKeeps(data, st.Skip(1).(handles := []), objects, result);
      } else {
        var r := ReadContent(data, st);
        if r.Done? {
          ReadAllKeeps(data, r.st, objects + r.value.1, AsMap(r.value.0, objects + r.value.1) + result);
        }
      }
    }
  }

  // Input on which decoding does not end.

  /** An object of a class without name and fields whose super is the class itself. */
  const SELF_SUPER: seq<Byte> :=
    [TC_OBJECT, TC_CLASSDESC, 0, 0, 0, 0, 0, 0, 0, 0, 0, 0, 0x02, 0, 0, TC_REFERENCE, 0, 0, 0, 0]

  const SELF: ClassDesc := ClassDesc([], 0x02, [], Some(0))

  /** The state when the super of the class is about to be read. */
  const OPEN: State := State(15, [JDesc(0)], [SELF.(super := None)], 0)

  lemma OpenIsSound()
    ensures Sound(SELF_SUPER, START.Skip(1)) && Sound(SELF_SUPER, START.Skip(2)) && Sound(SELF_SUPER, START.Skip(4))
    ensures Sound(SELF_SUPER, OPEN) && Sound(SELF_SUPER, OPEN.Skip(1))
  {
  }

  lemma SelfName()
    ensures Sound(SELF_SUPER, START.Skip(2))
    ensures ReadUTF(SELF_SUPER, START.Skip(2)) == Done([], START.Skip(4))
  {
    hide Be, Sound;
    OpenIsSound();
    BeZeros(SELF_SUPER[2..4]);
    assert SELF_SUPER[4..4] == [];
  }

  lemma SelfBody()
    ensures Sound(SELF_SUPER, START.Skip(4))
    ensures ReadDescBody(SELF_SUPER, [], START.Skip(4)) == Done((), OPEN)
  {
    hide Be, Sound;
    OpenIsSound();
    BeZeros(SELF_SUPER[13..15]);
    assert ReadFieldInfos(SELF_SUPER, 0, OPEN) == Done([], OPEN);
    assert !SELF.Annotated();
  }

  lemma SelfReference()
    ensures Sound(SELF_SUPER, OPEN)
    ensures ReadClassDesc(SELF_SUPER, OPEN) == Done(Some(0), OPEN.Skip(5))
  {
    hide Be, Sound, ReadUTF, ReadDescBody;
    OpenIsSound();
    BeZeros(SELF_SUPER[16..20]);
  }

  /** Its descriptor is read, and is a cycle of one class. */
  lemma SelfSuperReads()
    ensures Sound(SELF_SUPER, START.Skip(1))
    ensures ReadClassDesc(SELF_SUPER, START.Skip(1)) == Done(Some(0), State(20, [JDesc(0)], [SELF], 0))
  {
    hide Be, Sound, ReadUTF, ReadDescBody, ReadHandle;
    OpenIsSound();
    SelfName();
    SelfBody();
    SelfReference();
    assert SELF_SUPER[1] == TC_CLASSDESC;
  }

  /** Reading the object's class data, and so decoding the stream, goes on without end. */
  lemma SelfSuperNeverEnds()
    ensures DeserializeArgs(SELF_SUPER) == Diverges
  {
    hide ReadClassDesc, ReadLeaf, ReadOwnData;
    var data := SELF_SUPER;
    SelfSuperReads();
    var st := State(20, [JDesc(0), JObject(0)], [SELF], 1);
    SelfIsCycle();
    CycleWalkExactly(data, Some(0), map[], st, 1);
    DetectionIsExact(data, Some(0), map[], st);
    assert st.handles == [JDesc(0)] + [JObject(0)];
    assert ReadClassData(data, Some(0), {}, map[], st).Endless?;
    assert ReadObject(data, START.Skip(1)).Endless?;
    assert data[..4][0] == TC_OBJECT;
    assert ReadContent(data, START).Endless?;
  }

  lemma SelfIsCycle()
    ensures Chained([SELF]) && Nth([SELF], Some(0), 1) == Some(0)
    ensures forall i: nat :: !TakesAt([SELF], Some(0), i)
  {
  }
}
