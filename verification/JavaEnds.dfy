/**
 When reading the Java stream does not end, and when it panics, at every depth of nesting
 (dubboport/java_deserializer.go). The conditions follow the places the reader comes to, not what
 it returns there.
 */
module JavaEnds {
  import opened Wrappers
  import opened Bytes
  import opened JavaStream
  import opened JavaChains

  /**
   What may be met on the way: a class chain without an end, one on which moreover no class takes a
   byte, or a long string whose length takes the cursor beyond the signed range.
   */
  datatype What = Unended | Idling | Overflow

  ghost predicate Hit<T>(what: What, r: Outcome<T>) {
    if what.Overflow? then r.Panicked? else r.Endless?
  }

  /** That a chain has no end is necessary for reading not to end, the other two are exact. */
  ghost predicate Exact(what: What, hit: bool, met: bool) {
    (hit ==> met) && (met && !what.Unended? ==> hit)
  }

  // Contents without contents: they end, and only a long string can panic.

  predicate LongStringOverflows(data: seq<Byte>, st: State)
    requires Sound(data, st)
  {
    && st.pos + 8 <= |data|
    && Be(data[st.pos..st.pos + 8]) <= MAX_INT < st.pos + 8 + Be(data[st.pos..st.pos + 8])
  }

  predicate StringOverflows(data: seq<Byte>, st: State)
    requires Sound(data, st)
  {
    st.pos < |data| && data[st.pos] == TC_LONGSTRING && LongStringOverflows(data, st.Skip(1))
  }

  /** The name of a reference field's class is an object string. */
  predicate FieldInfosOverflow(data: seq<Byte>, n: nat, st: State)
    requires Sound(data, st)
    decreases n
  {
    n > 0 && st.pos < |data| &&
    (FieldInfoOverflows(data, st) ||
     (ReadFieldInfo(data, st).Done? && FieldInfosOverflow(data, n - 1, ReadFieldInfo(data, st).st)))
  }

  predicate FieldInfoOverflows(data: seq<Byte>, st: State)
    requires Sound(data, st) && st.pos < |data|
  {
    var name := ReadUTF(data, st.Skip(1));
    name.Done? && IsReference(data[st.pos]) && StringOverflows(data, name.st)
  }

  predicate BodyOverflows(data: seq<Byte>, name: Name, st: State)
    requires Sound(data, st)
  {
    && st.pos + 11 <= |data|
    && FieldInfosOverflow(data, Be(data[st.pos + 9..st.pos + 11]), Opened(data, name, st))
  }

  /** The state in which the fields of a new descriptor are read. */
  function Opened(data: seq<Byte>, name: Name, st: State): (r: State)
    requires Sound(data, st) && st.pos + 11 <= |data|
    ensures Sound(data, r)
  {
    var desc := ClassDesc(name, data[st.pos + 8], [], None);
    State(st.pos + 11, st.handles + [JDesc(|st.descs|)], st.descs + [desc], st.objects)
  }

  predicate DescOverflows(data: seq<Byte>, st: State)
    requires Sound(data, st)
    decreases |data| - st.pos
  {
    st.pos < |data| && data[st.pos] == TC_CLASSDESC &&
    var name := ReadUTF(data, st.Skip(1));
    name.Done? &&
    (BodyOverflows(data, name.value, name.st) ||
     var body := ReadDescBody(data, name.value, name.st);
     body.Done? && DescOverflows(data, body.st))
  }

  predicate LeafOverflows(data: seq<Byte>, tc: Byte, st: State)
    requires Sound(data, st) && st.pos < |data| && data[st.pos] == tc
  {
    var next := st.Skip(1);
    if tc == TC_LONGSTRING then LongStringOverflows(data, next)
    else if tc == TC_CLASS then DescOverflows(data, next)
    else
      tc == TC_ENUM &&
      (DescOverflows(data, next) ||
       (ReadClassDesc(data, next).Done? && StringOverflows(data, ReadClassDesc(data, next).st)))
  }

  lemma SoundNext(data: seq<Byte>, st: State)
    requires Sound(data, st) && st.pos < |data|
    ensures Sound(data, st.Skip(1))
  {
  }

  lemma StringEnds(data: seq<Byte>, st: State)
    requires Sound(data, st)
    ensures var r := ReadObjectString(data, st);
            !r.Endless? && (r.Panicked? <==> StringOverflows(data, st))
  {
    hide Be, Sound, Pow256;
  }

  lemma FieldInfoEnds(data: seq<Byte>, st: State)
    requires Sound(data, st) && st.pos < |data|
    ensures var r := ReadFieldInfo(data, st);
            !r.Endless? && (r.Panicked? <==> FieldInfoOverflows(data, st))
  {
    hide Be, Sound, ReadObjectString, StringOverflows;
    SoundNext(data, st);
    var name := ReadUTF(data, st.Skip(1));
    if name.Done? {
      StringEnds(data, name.st);
    }
  }

  lemma {:induction false} FieldInfosEnd(data: seq<Byte>, n: nat, st: State)
    requires Sound(data, st)
    ensures var r := ReadFieldInfos(data, n, st);
            !r.Endless? && (r.Panicked? <==> FieldInfosOverflow(data, n, st))
    decreases n
  {
    hide ReadFieldInfo, FieldInfoOverflows, Sound;
    if n > 0 {
      NoByteNoField(data, st);
      if st.pos < |data| {
        FieldInfoEnds(data, st);
        var f := ReadFieldInfo(data, st);
        if f.Done? {
          FieldInfosEnd(data, n - 1, f.st);
        }
      }
    }
  }

  lemma NoByteNoField(data: seq<Byte>, st: State)
    requires Sound(data, st)
    ensures st.pos >= |data| ==> ReadFieldInfo(data, st).Failed?
  {
  }

  lemma BodyEnds(data: seq<Byte>, name: Name, st: State)
    requires Sound(data, st)
    ensures var r := ReadDescBody(data, name, st);
            !r.Endless? && (r.Panicked? <==> BodyOverflows(data, name, st))
  {
    hide Be, ReadFieldInfos, FieldInfosOverflow, SkipAnnotation;
    if st.pos + 11 <= |data| {
      var st1 := Opened(data, name, st);
      var n := Be(data[st.pos + 9..st.pos + 11]);
      FieldInfosEnd(data, n, st1);
      var fields := ReadFieldInfos(data, n, st1);
      if fields.Done? {
        var desc := ClassDesc(name, data[st.pos + 8], fields.value, None);
        var st2 := fields.st.(descs := st.descs + [desc]);
        AnnotationEnds(data, st2);
      }
    }
  }

  lemma {:induction false} AnnotationEnds(data: seq<Byte>, st: State)
    requires Sound(data, st)
    ensures SkipAnnotation(data, st).Done? || SkipAnnotation(data, st).Failed?
    decreases |data| - st.pos
  {
    hide Be, Sound, SkipBlock;
    if AtBlock(data, st) {
      BlockEnds(data, st);
      if SkipBlock(data, st).Done? {
        AnnotationEnds(data, SkipBlock(data, st).st);
      }
    }
  }

  lemma BlockEnds(data: seq<Byte>, st: State)
    requires Sound(data, st)
    ensures SkipBlock(data, st).Done? || SkipBlock(data, st).Failed?
  {
    hide Be, Sound;
  }

  /** Reading a descriptor ends, with a panic exactly at a long string that overflows. */
  lemma {:induction false} DescEnds(data: seq<Byte>, st: State)
    requires Sound(data, st)
    ensures var r := ReadClassDesc(data, st);
            !r.Endless? && (r.Panicked? <==> DescOverflows(data, st))
    decreases |data| - st.pos
  {
    hide Be, Sound, ReadUTF, ReadDescBody, BodyOverflows;
    if st.pos < |data| && data[st.pos] == TC_CLASSDESC {
      SoundNext(data, st);
      UTFEnds(data, st.Skip(1));
      var name := ReadUTF(data, st.Skip(1));
      if name.Done? {
        BodyEnds(data, name.value, name.st);
        var body := ReadDescBody(data, name.value, name.st);
        if body.Done? {
          DescEnds(data, body.st);
        }
      }
    }
  }

  lemma UTFEnds(data: seq<Byte>, st: State)
    requires Sound(data, st)
    ensures ReadUTF(data, st).Done? || ReadUTF(data, st).Failed?
  {
    hide Be, Sound;
  }

  lemma LeafEnds(data: seq<Byte>, tc: Byte, st: State)
    requires Sound(data, st) && st.pos < |data| && data[st.pos] == tc
    ensures var r := ReadLeaf(data, tc, st);
            !r.Endless? && (r.Panicked? <==> LeafOverflows(data, tc, st))
  {
    hide Be, Sound, ReadUTF, ReadObjectString, StringOverflows, ReadClassDesc, DescOverflows, SkipBlock;
    var next := st.Skip(1);
    SoundNext(data, st);
    UTFEnds(data, next);
    DescEnds(data, next);
    BlockEnds(data, st);
    var desc := ReadClassDesc(data, next);
    if desc.Done? {
      StringEnds(data, desc.st);
    }
  }

  // What is met on the way.

  ghost predicate Stuck(what: What, descs: seq<ClassDesc>, p: Option<nat>)
    requires Chained(descs) && InRange(p, descs)
  {
    match what
    case Unended => forall n: nat :: Nth(descs, p, n).Some?
    case Idling => Idle(descs, p)
    case Overflow => false
  }

  ghost predicate ContentMeets(what: What, data: seq<Byte>, st: State)
    requires Sound(data, st)
    decreases |data| - st.pos, 1
  {
    st.pos < |data| &&
    var tc := data[st.pos];
    if tc == TC_OBJECT then ObjectMeets(what, data, st.Skip(1))
    else if tc == TC_ARRAY then ArrayMeets(what, data, st.Skip(1))
    else what.Overflow? && LeafOverflows(data, tc, st)
  }

  ghost predicate DescMeets(what: What, data: seq<Byte>, st: State)
    requires Sound(data, st)
  {
    what.Overflow? && DescOverflows(data, st)
  }

  ghost predicate ObjectMeets(what: What, data: seq<Byte>, st: State)
    requires Sound(data, st)
    decreases |data| - st.pos, 6
  {
    DescMeets(what, data, st) ||
    (ReadClassDesc(data, st).Done? && ChainMeets(what, data, ReadClassDesc(data, st).value, map[], Created(data, st)))
  }

  lemma CreatedGrows(data: seq<Byte>, st: State, next: State)
    requires Sound(data, st) && Grows(data, st, next) && next.objects == st.objects
    ensures Grows(data, st, State(next.pos, next.handles + [JObject(st.objects)], next.descs, st.objects + 1))
  {
  }

  /** The state in which the class data of a new object are read. */
  function Created(data: seq<Byte>, st: State): (r: State)
    requires Sound(data, st) && ReadClassDesc(data, st).Done?
    ensures Grows(data, st, r) && st.pos < r.pos && r.descs == ReadClassDesc(data, st).st.descs
  {
    var next := ReadClassDesc(data, st).st;
    CreatedGrows(data, st, next);
    State(next.pos, next.handles + [JObject(st.objects)], next.descs, st.objects + 1)
  }

  /** The walk over the classes comes to a class where it is stuck, or in whose own data it is met. */
  ghost predicate ChainMeets(what: What, data: seq<Byte>, p: Option<nat>, obj: Obj, st: State)
    requires Sound(data, st) && Points(p, st)
    decreases |data| - st.pos, 5
  {
    exists n: nat :: var w := Steps(data, p, obj, st, n);
      w.Running? && Chained(w.st.descs) &&
      (Stuck(what, w.st.descs, w.p) || OwnMeets(what, data, w.st.descs[w.p.value], w.st))
  }

  ghost predicate OwnMeets(what: What, data: seq<Byte>, d: ClassDesc, st: State)
    requires Sound(data, st)
    decreases |data| - st.pos, 4, |d.fields| + 1
  {
    !(d.HasWriteMethod() && AtBlock(data, st)) && FieldsMeet(what, data, d.fields, st)
  }

  ghost predicate FieldsMeet(what: What, data: seq<Byte>, fields: seq<FieldInfo>, st: State)
    requires Sound(data, st)
    decreases |data| - st.pos, 4, |fields|
  {
    fields != [] &&
    (FieldMeets(what, data, fields[0].typeCode, st) ||
     var v := ReadFieldValue(data, fields[0].typeCode, st);
     v.Done? && FieldsMeet(what, data, fields[1..], v.st))
  }

  ghost predicate FieldMeets(what: What, data: seq<Byte>, code: Byte, st: State)
    requires Sound(data, st)
    decreases |data| - st.pos, 2
  {
    IsReference(code) && ContentMeets(what, data, st)
  }

  /** The state in which the elements of an array are read: its handle names nothing yet. */
  function Placed(data: seq<Byte>, st: State): (r: State)
    requires Sound(data, st) && st.pos + 4 <= |data|
    ensures Sound(data, r)
  {
    st.Skip(4).Push(JNull)
  }

  ghost predicate ArrayMeets(what: What, data: seq<Byte>, st: State)
    requires Sound(data, st)
    decreases |data| - st.pos, 6
  {
    DescMeets(what, data, st) ||
    var desc := ReadClassDesc(data, st);
    desc.Done? && desc.value.Some? && desc.st.pos + 4 <= |data| &&
    ElementsMeet(what, data, ElementType(desc.st.descs[desc.value.value]),
                 Be(data[desc.st.pos..desc.st.pos + 4]), Placed(data, desc.st))
  }

  ghost predicate ElementsMeet(what: What, data: seq<Byte>, elem: Byte, n: nat, st: State)
    requires Sound(data, st)
    decreases |data| - st.pos, 4, n
  {
    n > 0 &&
    var code := if IsPrimitive(elem) then elem else 'L' as int;
    FieldMeets(what, data, code, st) ||
    var v := ReadFieldValue(data, code, st);
    v.Done? && ElementsMeet(what, data, elem, n - 1, v.st)
  }

  /** Over the top-level contents. */
  ghost predicate AllMeets(what: What, data: seq<Byte>, st: State)
    requires Sound(data, st)
    decreases |data| - st.pos
  {
    st.pos < |data| &&
    if data[st.pos] == TC_ENDBLOCKDATA then AllMeets(what, data, st.Skip(1))
    else if data[st.pos] == TC_RESET then AllMeets(what, data, st.Skip(1).(handles := []))
    else
      ContentMeets(what, data, st) ||
      (ReadContent(data, st).Done? && AllMeets(what, data, ReadContent(data, st).st))
  }

  // One walk.

  /** A walk that ended without success ended in the own data of a class it came to. */
  lemma {:induction false} FailedAt(data: seq<Byte>, p: Option<nat>, obj: Obj, st: State, n: nat) returns (m: nat)
    requires Sound(data, st) && Points(p, st)
    requires var w := Steps(data, p, obj, st, n);
             w.Ended? && !w.r.Done?
    ensures var w := Steps(data, p, obj, st, m);
            w.Running? && Steps(data, p, obj, st, n).r == ReadOwnData(data, w.st.descs[w.p.value], w.obj, w.st)
    decreases n
  {
    hide ReadOwnData, Before;
    m := 0;
    var d := st.descs[p.value];
    var o := ReadOwnData(data, d, obj, st);
    if o.Done? {
      var rest := Steps(data, d.super, o.value.0, o.st, n - 1);
      BeforeFailed(o.value.1, rest);
      var m' := FailedAt(data, d.super, o.value.0, o.st, n - 1);
      BeforeCases(o.value.1, Steps(data, d.super, o.value.0, o.st, m'));
      m := m' + 1;
    }
  }

  lemma BeforeFailed(made: seq<Obj>, w: Walk)
    ensures w.Ended? <==> Before(made, w).Ended?
    ensures w.Ended? ==> (Before(made, w).r.Done? <==> w.r.Done?)
    ensures w.Ended? && !w.r.Done? ==> Before(made, w) == w
  {
  }

  /** A walk ends where reading the own data of a class does not succeed. */
  lemma EndsAt(data: seq<Byte>, p: Option<nat>, obj: Obj, st: State, m: nat)
    requires Sound(data, st) && Points(p, st) && Steps(data, p, obj, st, m).Running?
    ensures var w := Steps(data, p, obj, st, m);
            var o := ReadOwnData(data, w.st.descs[w.p.value], w.obj, w.st);
            !o.Done? ==> Steps(data, p, obj, st, m + 1) == Ended(o)
  {
    hide ReadOwnData, Before, Steps;
    var w := Steps(data, p, obj, st, m);
    StepsAdd(data, p, obj, st, m, 1);
    OneStep(data, w.p, w.obj, w.st);
    BeforeFailed(w.made, Steps(data, w.p, w.obj, w.st, 1));
  }

  lemma OneStep(data: seq<Byte>, p: Option<nat>, obj: Obj, st: State)
    requires Sound(data, st) && Points(p, st) && p.Some?
    ensures var o := ReadOwnData(data, st.descs[p.value], obj, st);
            !o.Done? ==> Steps(data, p, obj, st, 1) == Ended(o)
  {
    hide ReadOwnData, Before;
  }

  /** Exactness for the own data of every class the walk comes to. */
  ghost predicate OwnExact(what: What, data: seq<Byte>, p: Option<nat>, obj: Obj, st: State)
    requires Sound(data, st) && Points(p, st)
  {
    forall n: nat :: var w := Steps(data, p, obj, st, n);
      w.Running? ==> OwnExactAt(what, data, w.st.descs[w.p.value], w.obj, w.st)
  }

  ghost predicate OwnExactAt(what: What, data: seq<Byte>, d: ClassDesc, obj: Obj, st: State)
    requires Sound(data, st)
  {
    Exact(what, Hit(what, ReadOwnData(data, d, obj, st)), OwnMeets(what, data, d, st))
  }

  lemma OwnAt(what: What, data: seq<Byte>, p: Option<nat>, obj: Obj, st: State, m: nat)
    requires Sound(data, st) && Points(p, st) && OwnExact(what, data, p, obj, st)
    requires Steps(data, p, obj, st, m).Running?
    ensures var w := Steps(data, p, obj, st, m);
            Exact(what, Hit(what, ReadOwnData(data, w.st.descs[w.p.value], w.obj, w.st)),
                  OwnMeets(what, data, w.st.descs[w.p.value], w.st))
  {
    hide Steps, ReadOwnData, OwnMeets, Exact, Hit, Sound;
    var w := Steps(data, p, obj, st, m);
    assert OwnExactAt(what, data, w.st.descs[w.p.value], w.obj, w.st);
  }

  lemma IdleIsStuck(what: What, descs: seq<ClassDesc>, p: Option<nat>)
    requires Chained(descs) && InRange(p, descs) && Idle(descs, p) && !what.Overflow?
    ensures Stuck(what, descs, p)
  {
    hide Nth;
  }

  lemma ChainHit(what: What, data: seq<Byte>, p: Option<nat>, obj: Obj, st: State)
    requires Sound(data, st) && Points(p, st) && OwnExact(what, data, p, obj, st)
    requires Hit(what, ReadClassData(data, p, {}, obj, st))
    ensures ChainMeets(what, data, p, obj, st)
  {
    hide Steps, Nth, Idle, ReadClassData, ReadOwnData, OwnMeets, OwnExact, Stuck, Chained, Sound;
    if NeverEnds(data, p, obj, st) {
      DetectionIsExact(data, p, obj, st);
      EndlessExactly(data, p, obj, st);
      var m: nat :| var w := Steps(data, p, obj, st, m); w.Running? && Chained(w.st.descs) && Idle(w.st.descs, w.p);
      var w := Steps(data, p, obj, st, m);
      IdleIsStuck(what, w.st.descs, w.p);
    } else {
      var n: nat :| !Steps(data, p, obj, st, n).Running?;
      DetectionIsExact(data, p, obj, st);
      var m := FailedAt(data, p, obj, st, n);
      var w := Steps(data, p, obj, st, m);
      OwnAt(what, data, p, obj, st, m);
      SoundChain(data, w.st);
    }
  }

  /** A walk that comes to a place from which no class takes a byte never ends. */
  lemma IdleAhead(data: seq<Byte>, p: Option<nat>, obj: Obj, st: State, m: nat)
    requires Sound(data, st) && Points(p, st)
    requires var w := Steps(data, p, obj, st, m);
             w.Running? && Chained(w.st.descs) && Idle(w.st.descs, w.p)
    ensures NeverEnds(data, p, obj, st)
  {
    hide Steps, Nth, Idle, Chained, Sound, NeverEnds;
    EndlessExactly(data, p, obj, st);
  }

  lemma ChainMet(what: What, data: seq<Byte>, p: Option<nat>, obj: Obj, st: State)
    requires Sound(data, st) && Points(p, st) && OwnExact(what, data, p, obj, st)
    requires ChainMeets(what, data, p, obj, st) && !what.Unended?
    ensures Hit(what, ReadClassData(data, p, {}, obj, st))
  {
    hide Steps, Nth, Idle, ReadClassData, ReadOwnData, OwnMeets, OwnExact, Chained, Sound;
    var n: nat :| var w := Steps(data, p, obj, st, n);
      w.Running? && Chained(w.st.descs) &&
      (Stuck(what, w.st.descs, w.p) || OwnMeets(what, data, w.st.descs[w.p.value], w.st));
    var w := Steps(data, p, obj, st, n);
    DetectionIsExact(data, p, obj, st);
    if Stuck(what, w.st.descs, w.p) {
      IdleAhead(data, p, obj, st, n);
    } else {
      OwnAt(what, data, p, obj, st, n);
      EndsAt(data, p, obj, st, n);
      assert Steps(data, p, obj, st, n + 1).Ended?;
    }
  }

  // Every content.

  lemma {:induction false} ContentEnds(what: What, data: seq<Byte>, st: State)
    requires Sound(data, st)
    ensures Exact(what, Hit(what, ReadContent(data, st)), ContentMeets(what, data, st))
    decreases |data| - st.pos, 1
  {
    hide Sound, ReadObject, ReadArray, ReadLeaf, ObjectMeets, ArrayMeets, LeafOverflows;
    if st.pos < |data| {
      SoundNext(data, st);
      var tc := data[st.pos];
      if tc == TC_OBJECT {
        ObjectEnds(what, data, st.Skip(1));
      } else if tc == TC_ARRAY {
        ArrayEnds(what, data, st.Skip(1));
      } else {
        LeafEnds(data, tc, st);
      }
    }
  }

  lemma {:induction false} ObjectEnds(what: What, data: seq<Byte>, st: State)
    requires Sound(data, st)
    ensures Exact(what, Hit(what, ReadObject(data, st)), ObjectMeets(what, data, st))
    decreases |data| - st.pos, 6
  {
    hide Sound, ReadClassDesc, ReadClassData, DescOverflows, ChainMeets;
    DescEnds(data, st);
    if ReadClassDesc(data, st).Done? {
      InData(data, st, Created(data, st));
      ChainEnds(what, data, ReadClassDesc(data, st).value, map[], Created(data, st));
    }
  }

  lemma {:induction false} ChainEnds(what: What, data: seq<Byte>, p: Option<nat>, obj: Obj, st: State)
    requires Sound(data, st) && Points(p, st)
    ensures Exact(what, Hit(what, ReadClassData(data, p, {}, obj, st)), ChainMeets(what, data, p, obj, st))
    decreases |data| - st.pos, 5
  {
    hide Hit, ReadClassData, ReadOwnData, OwnMeets, ChainMeets, Steps, Sound, Exact;
    forall n: nat
      ensures var w := Steps(data, p, obj, st, n);
              w.Running? ==> OwnExactAt(what, data, w.st.descs[w.p.value], w.obj, w.st)
    {
      var w := Steps(data, p, obj, st, n);
      if w.Running? {
        InData(data, st, w.st);
        OwnEnds(what, data, w.st.descs[w.p.value], w.obj, w.st);
      }
    }
    if Hit(what, ReadClassData(data, p, {}, obj, st)) {
      ChainHit(what, data, p, obj, st);
    }
    if ChainMeets(what, data, p, obj, st) && !what.Unended? {
      ChainMet(what, data, p, obj, st);
    }
    Both(what, Hit(what, ReadClassData(data, p, {}, obj, st)), ChainMeets(what, data, p, obj, st));
  }

  lemma Both(what: What, hit: bool, met: bool)
    requires hit ==> met
    requires met && !what.Unended? ==> hit
    ensures Exact(what, hit, met)
  {
  }

  lemma {:induction false} OwnEnds(what: What, data: seq<Byte>, d: ClassDesc, obj: Obj, st: State)
    requires Sound(data, st)
    ensures Exact(what, Hit(what, ReadOwnData(data, d, obj, st)), OwnMeets(what, data, d, st))
    decreases |data| - st.pos, 4, |d.fields| + 1
  {
    hide Sound, SkipAnnotation, ReadFields, FieldsMeet, AtBlock;
    AnnotationEnds(data, st);
    FieldsEnd(what, data, d.fields, obj, st);
    var f := ReadFields(data, d.fields, obj, st);
    if f.Done? {
      AnnotationEnds(data, f.st);
    }
  }

  lemma {:induction false} FieldsEnd(what: What, data: seq<Byte>, fields: seq<FieldInfo>, obj: Obj, st: State)
    requires Sound(data, st)
    ensures Exact(what, Hit(what, ReadFields(data, fields, obj, st)), FieldsMeet(what, data, fields, st))
    decreases |data| - st.pos, 4, |fields|
  {
    hide Sound, ReadFieldValue, FieldMeets, SetField;
    if fields != [] {
      FieldEnds(what, data, fields[0].typeCode, st);
      var v := ReadFieldValue(data, fields[0].typeCode, st);
      if v.Done? {
        InData(data, st, v.st);
        FieldsEnd(what, data, fields[1..], SetField(obj, fields[0].name, v.value.0), v.st);
      }
    }
  }

  lemma {:induction false} FieldEnds(what: What, data: seq<Byte>, code: Byte, st: State)
    requires Sound(data, st)
    ensures Exact(what, Hit(what, ReadFieldValue(data, code, st)), FieldMeets(what, data, code, st))
    decreases |data| - st.pos, 2
  {
    hide Sound, ReadContent, ContentMeets, PrimitiveValue;
    if IsReference(code) {
      ContentEnds(what, data, st);
    }
  }

  lemma {:induction false} ArrayEnds(what: What, data: seq<Byte>, st: State)
    requires Sound(data, st)
    ensures Exact(what, Hit(what, ReadArray(data, st)), ArrayMeets(what, data, st))
    decreases |data| - st.pos, 6
  {
    hide Sound, ReadClassDesc, ReadElements, DescOverflows, ElementsMeet, ElementType, Be, SetHandle;
    DescEnds(data, st);
    var desc := ReadClassDesc(data, st);
    if desc.Done? && desc.value.Some? && desc.st.pos + 4 <= |data| {
      ElementsEnd(what, data, ElementType(desc.st.descs[desc.value.value]),
                  Be(data[desc.st.pos..desc.st.pos + 4]), Placed(data, desc.st));
    }
  }

  lemma {:induction false} ElementsEnd(what: What, data: seq<Byte>, elem: Byte, n: nat, st: State)
    requires Sound(data, st)
    ensures Exact(what, Hit(what, ReadElements(data, elem, n, st)), ElementsMeet(what, data, elem, n, st))
    decreases |data| - st.pos, 4, n
  {
    hide Sound, ReadFieldValue, FieldMeets;
    if n > 0 {
      var code := if IsPrimitive(elem) then elem else 'L' as int;
      FieldEnds(what, data, code, st);
      var v := ReadFieldValue(data, code, st);
      if v.Done? {
        InData(data, st, v.st);
        ElementsEnd(what, data, elem, n - 1, v.st);
      }
    }
  }

  lemma {:induction false} AllEnd(data: seq<Byte>, st: State, objects: seq<Obj>, result: Obj)
    requires Sound(data, st) && st.objects == |objects|
    ensures var r := ReadAll(data, st, objects, result);
            && (r == Diverges <==> AllMeets(Idling, data, st))
            && (r == Panics <==> AllMeets(Overflow, data, st))
            && (r == Diverges ==> AllMeets(Unended, data, st))
    decreases |data| - st.pos
  {
    hide Sound, ReadContent, ContentMeets, AsMap;
    if st.pos < |data| {
      SoundNext(data, st);
      SoundReset(data, st);
      if data[st.pos] == TC_ENDBLOCKDATA {
        AllEnd(data, st.Skip(1), objects, result);
      } else if data[st.pos] == TC_RESET {
        AllEnd(data, st.Skip(1).(handles := []), objects, result);
      } else {
        ContentEndsExactly(data, st);
        var r := ReadContent(data, st);
        if r.Done? {
          InData(data, st, r.st);
          AllEnd(data, r.st, objects + r.value.1, AsMap(r.value.0, objects + r.value.1) + result);
        }
      }
    }
  }

  lemma SoundReset(data: seq<Byte>, st: State)
    requires Sound(data, st) && st.pos < |data|
    ensures Sound(data, st.Skip(1).(handles := []))
  {
  }

  // Exactly when reading does not end, and when it panics.

  lemma ContentEndsExactly(data: seq<Byte>, st: State)
    requires Sound(data, st)
    ensures ReadContent(data, st).Endless? <==> ContentMeets(Idling, data, st)
    ensures ReadContent(data, st).Panicked? <==> ContentMeets(Overflow, data, st)
    ensures !ContentMeets(Unended, data, st) ==> !ReadContent(data, st).Endless?
  {
    hide Sound, ReadContent, ContentMeets;
    ContentEnds(Idling, data, st);
    ContentEnds(Overflow, data, st);
    ContentEnds(Unended, data, st);
  }

  lemma ChainEndsExactly(data: seq<Byte>, p: Option<nat>, obj: Obj, st: State)
    requires Sound(data, st) && Points(p, st)
    ensures ReadClassData(data, p, {}, obj, st).Endless? <==> ChainMeets(Idling, data, p, obj, st)
    ensures ReadClassData(data, p, {}, obj, st).Panicked? <==> ChainMeets(Overflow, data, p, obj, st)
    ensures !ChainMeets(Unended, data, p, obj, st) ==> !ReadClassData(data, p, {}, obj, st).Endless?
  {
    hide Sound, ReadClassData, ChainMeets;
    ChainEnds(Idling, data, p, obj, st);
    ChainEnds(Overflow, data, p, obj, st);
    ChainEnds(Unended, data, p, obj, st);
  }

  /**
   Decoding a stream goes on without end if and only if it comes to a class chain without an end on
   which no class takes a byte, and panics if and only if it comes to a long string that overflows.
   */
  lemma DecodingEndsExactly(data: seq<Byte>)
    ensures var start := START.Skip(StartPos(data));
            && (DeserializeArgs(data) == Diverges <==> AllMeets(Idling, data, start))
            && (DeserializeArgs(data) == Panics <==> AllMeets(Overflow, data, start))
  {
    hide ReadAll, AllMeets;
    AllEnd(data, START.Skip(StartPos(data)), [], map[]);
  }

  /** In particular it ends on every stream whose class chains all end. */
  lemma ChainsEndDecodingEnds(data: seq<Byte>)
    requires !AllMeets(Unended, data, START.Skip(StartPos(data)))
    ensures DeserializeArgs(data) != Diverges
  {
    hide ReadAll, AllMeets;
    AllEnd(data, START.Skip(StartPos(data)), [], map[]);
  }

  /**
   On a cycle of descriptors reading never succeeds. If no class of the cycle takes a byte it never
   ends. Otherwise it never ends exactly if in the own data of some class it comes to, so in a
   content nested there, it never ends.
   */
  lemma CycleEndsExactly(data: seq<Byte>, p: Option<nat>, obj: Obj, st: State, k: nat)
    requires Sound(data, st) && Points(p, st) && Chained(st.descs)
    requires p.Some? && k > 0 && Nth(st.descs, p, k) == p
    ensures var r := ReadClassData(data, p, {}, obj, st);
            !r.Done? &&
            ((forall i: nat :: !TakesAt(st.descs, p, i)) ==> r.Endless?) &&
            ((exists i: nat :: TakesAt(st.descs, p, i)) ==>
               (r.Endless? <==> NestedMeets(Idling, data, p, obj, st)))
  {
    hide Nth, Steps, ReadClassData, Idle, OwnMeets, Sound, TakesAt;
    CycleWalkExactly(data, p, obj, st, k);
    DetectionIsExact(data, p, obj, st);
    ChainEndsExactly(data, p, obj, st);
    if i: nat :| TakesAt(st.descs, p, i) {
      if ChainMeets(Idling, data, p, obj, st) {
        var n: nat :| var w := Steps(data, p, obj, st, n);
          w.Running? && Chained(w.st.descs) &&
          (Stuck(Idling, w.st.descs, w.p) || OwnMeets(Idling, data, w.st.descs[w.p.value], w.st));
        TakerAhead(data, p, obj, st, k, n, i);
      }
      if NestedMeets(Idling, data, p, obj, st) {
        var n: nat :| var w := Steps(data, p, obj, st, n);
          w.Running? && OwnMeets(Idling, data, w.st.descs[w.p.value], w.st);
        SoundChain(data, Steps(data, p, obj, st, n).st);
      }
    }
  }

  ghost predicate NestedMeets(what: What, data: seq<Byte>, p: Option<nat>, obj: Obj, st: State)
    requires Sound(data, st) && Points(p, st)
  {
    exists n: nat :: var w := Steps(data, p, obj, st, n);
      w.Running? && OwnMeets(what, data, w.st.descs[w.p.value], w.st)
  }

  // Instances.

  /** A class without fields and one with a reference field, each its own super. */
  const HELD: ClassDesc := ClassDesc([], 2, [], Some(0))
  const HOLDER: ClassDesc := ClassDesc([], 2, [FieldInfo('L' as int, [], [])], Some(1))
  const HOLDING: State := State(0, [JDesc(0), JDesc(1)], [HELD, HOLDER], 0)

  /** An object of the class that the first handle names. */
  const HELD_OBJECT: seq<Byte> := [TC_OBJECT, TC_REFERENCE, 0, 0, 0, 0]

  lemma HeldReads()
    ensures Sound(HELD_OBJECT, HOLDING)
    ensures ReadClassDesc(HELD_OBJECT, HOLDING.Skip(1)) == Done(Some(0), HOLDING.Skip(6))
  {
    hide Be, ReadUTF, ReadDescBody;
    BeZeros(HELD_OBJECT[2..6]);
  }

  lemma {:induction false} HeldIdles(descs: seq<ClassDesc>, n: nat)
    requires descs == [HELD, HOLDER]
    ensures Chained(descs) && Nth(descs, Some(0), n) == Some(0) && !TakesAt(descs, Some(0), n)
    decreases n
  {
    if n > 0 {
      HeldIdles(descs, n - 1);
    }
  }

  /** The cycle of a class that takes a byte does not end either, because of the object it holds. */
  lemma NestedNeverEnds()
    ensures Sound(HELD_OBJECT, HOLDING) && Chained(HOLDING.descs) && TakesAt(HOLDING.descs, Some(1), 0)
    ensures ReadClassData(HELD_OBJECT, Some(1), {}, map[], HOLDING).Endless?
  {
    hide ReadClassDesc, ReadClassData;
    HeldReads();
    var st := Created(HELD_OBJECT, HOLDING.Skip(1));
    forall n: nat
      ensures Chained(st.descs) && Nth(st.descs, Some(0), n).Some? && !TakesAt(st.descs, Some(0), n)
    {
      HeldIdles(st.descs, n);
    }
    assert Steps(HELD_OBJECT, Some(0), map[], st, 0).Running?;
    assert ChainMeets(Idling, HELD_OBJECT, Some(0), map[], st);
    assert ContentMeets(Idling, HELD_OBJECT, HOLDING);
    assert FieldsMeet(Idling, HELD_OBJECT, HOLDER.fields, HOLDING);
    assert Steps(HELD_OBJECT, Some(1), map[], HOLDING, 0).Running?;
    assert ChainMeets(Idling, HELD_OBJECT, Some(1), map[], HOLDING);
    ChainEndsExactly(HELD_OBJECT, Some(1), map[], HOLDING);
  }

  /** A long string of 2^63 - 1 bytes. */
  const HUGE_STRING: seq<Byte> := [TC_LONGSTRING, 0x7F, 0xFF, 0xFF, 0xFF, 0xFF, 0xFF, 0xFF, 0xFF]

  /** The greatest signed number of any width. */
  lemma {:induction false} BeGreatest(b: seq<Byte>)
    requires b != [] && b[0] == 0x7F && forall i :: 0 < i < |b| ==> b[i] == 0xFF
    ensures 2 * (Be(b) + 1) == Pow256(|b|)
  {
    if |b| == 1 {
      assert Be(b[..0]) == 0 && Pow256(1) == 256 * Pow256(0);
    } else {
      BeGreatest(b[..|b| - 1]);
    }
  }

  lemma LongStringPanics()
    ensures DeserializeArgs(HUGE_STRING) == Panics
  {
    hide Be, Pow256, ReadAll;
    BeGreatest(HUGE_STRING[1..9]);
    PowersOf256();
    assert HUGE_STRING[..4][0] == TC_LONGSTRING;
    DecodingEndsExactly(HUGE_STRING);
  }
}
