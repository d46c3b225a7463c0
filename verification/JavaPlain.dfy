/**
 The recursion of dubboport/java_deserializer.go as it stands, at no depth looking for classes that
 come back. To have a value at all it is cut: no object is filled from more than a given number of
 classes, and a cut shows as Endless.
 */
module JavaPlain {
  import opened Wrappers
  import opened Bytes
  import opened JavaStream
  import opened JavaChains
  import opened JavaEnds

  // Classes passed before do not matter.

  lemma SeenIsIrrelevant(data: seq<Byte>, p: Option<nat>, seen: set<nat>, obj: Obj, st: State)
    requires Sound(data, st) && Points(p, st) && Chained(st.descs) && Leads(st.descs, seen, p)
    ensures ReadClassData(data, p, seen, obj, st) == ReadClassData(data, p, {}, obj, st)
  {
    hide ReadClassData, Steps, Leads, Sound;
    DetectionIsExact(data, p, obj, st);
    if !ReadClassData(data, p, seen, obj, st).Endless? {
      var n := EndsUnlessEndless(data, p, seen, obj, st);
      DetectedFrom(data, p, seen, obj, st, n);
    } else if !ReadClassData(data, p, {}, obj, st).Endless? {
      var n := EndsUnlessEndless(data, p, {}, obj, st);
      DetectedFrom(data, p, seen, obj, st, n);
    } else {
      BothEndless(ReadClassData(data, p, seen, obj, st), ReadClassData(data, p, {}, obj, st));
    }
  }

  lemma BothEndless<T>(a: Outcome<T>, b: Outcome<T>)
    requires a.Endless? && b.Endless?
    ensures a == b
  {
  }

  /** Reading class data is the own data of the first class and then, afresh, the data of its super. */
  lemma ClassDataUnfolds(data: seq<Byte>, c: nat, obj: Obj, st: State)
    requires Sound(data, st) && c < |st.descs|
    ensures var d := st.descs[c];
            var o := ReadOwnData(data, d, obj, st);
            ReadClassData(data, Some(c), {}, obj, st) ==
              if o.Done? then Over(o.value.1, ReadClassData(data, d.super, {}, o.value.0, o.st)) else o
  {
    hide ReadOwnData, Leads, Sound;
    var d := st.descs[c];
    var o := ReadOwnData(data, d, obj, st);
    if o.Done? && !d.Takes() {
      SoundChain(data, st);
      NothingLeads(st.descs, Some(c));
      LeadsOn(st.descs, {}, c);
      assert {} + {c} == {c};
      SeenIsIrrelevant(data, d.super, {c}, o.value.0, o.st);
    }
  }

  /** With the objects made before in front. */
  function Over(made: seq<Obj>, r: Outcome<(Obj, seq<Obj>)>): Outcome<(Obj, seq<Obj>)> {
    if r.Done? then Done((r.value.0, made + r.value.1), r.st) else r
  }

  // The recursion. What is not cut is what JavaStream reads.

  function PlainContent(data: seq<Byte>, limit: nat, st: State): (r: Outcome<(JavaValue, seq<Obj>)>)
    requires Sound(data, st)
    ensures r.Endless? || r == ReadContent(data, st)
    decreases |data| - st.pos, 1
  {
    if st.pos >= |data| then Failed
    else
      var tc := data[st.pos];
      if tc == TC_OBJECT then PlainObject(data, limit, st.Skip(1))
      else if tc == TC_ARRAY then PlainArray(data, limit, st.Skip(1))
      else ReadLeaf(data, tc, st)
  }

  function PlainObject(data: seq<Byte>, limit: nat, st: State): (r: Outcome<(JavaValue, seq<Obj>)>)
    requires Sound(data, st)
    ensures r.Endless? || r == ReadObject(data, st)
    decreases |data| - st.pos, 6
  {
    var desc :- ReadClassDesc(data, st);
    var o :- PlainClassData(data, limit, limit, desc.0, map[], Created(data, st));
    Done((JObject(st.objects), [o.0.0] + o.0.1), o.1)
  }

  /** Of n more classes. */
  function PlainClassData(data: seq<Byte>, limit: nat, n: nat, p: Option<nat>, obj: Obj, st: State)
    : (r: Outcome<(Obj, seq<Obj>)>)
    requires Sound(data, st) && Points(p, st)
    ensures r.Endless? || r == ReadClassData(data, p, {}, obj, st)
    decreases |data| - st.pos, 5, n
  {
    match p
    case None => Done((obj, []), st)
    case Some(c) =>
      if n == 0 then Endless
      else
        ClassDataUnfolds(data, c, obj, st);
        var d := st.descs[c];
        var o :- PlainOwnData(data, limit, d, obj, st);
        Over(o.0.1, PlainClassData(data, limit, n - 1, d.super, o.0.0, o.1))
  }

  function PlainOwnData(data: seq<Byte>, limit: nat, d: ClassDesc, obj: Obj, st: State): (r: Outcome<(Obj, seq<Obj>)>)
    requires Sound(data, st)
    ensures r.Endless? || r == ReadOwnData(data, d, obj, st)
    decreases |data| - st.pos, 4, |d.fields| + 1
  {
    if d.HasWriteMethod() && AtBlock(data, st) then
      var a :- SkipAnnotation(data, st);
      Done((obj, []), a.1)
    else
      var f :- PlainFields(data, limit, d.fields, obj, st);
      var a :- SkipWritten(data, d, f.1);
      Done(f.0, a.1)
  }

  function PlainFields(data: seq<Byte>, limit: nat, fields: seq<FieldInfo>, obj: Obj, st: State)
    : (r: Outcome<(Obj, seq<Obj>)>)
    requires Sound(data, st)
    ensures r.Endless? || r == ReadFields(data, fields, obj, st)
    decreases |data| - st.pos, 4, |fields|
  {
    if fields == [] then Done((obj, []), st)
    else
      var v :- PlainFieldValue(data, limit, fields[0].typeCode, st);
      var rest :- PlainFields(data, limit, fields[1..], SetField(obj, fields[0].name, v.0.0), v.1);
      Done((rest.0.0, v.0.1 + rest.0.1), rest.1)
  }

  function PlainFieldValue(data: seq<Byte>, limit: nat, code: Byte, st: State): (r: Outcome<(JavaValue, seq<Obj>)>)
    requires Sound(data, st)
    ensures r.Endless? || r == ReadFieldValue(data, code, st)
    decreases |data| - st.pos, 2
  {
    if IsReference(code) then PlainContent(data, limit, st) else ReadFieldValue(data, code, st)
  }

  function PlainArray(data: seq<Byte>, limit: nat, st: State): (r: Outcome<(JavaValue, seq<Obj>)>)
    requires Sound(data, st)
    ensures r.Endless? || r == ReadArray(data, st)
    decreases |data| - st.pos, 6
  {
    var desc :- ReadClassDesc(data, st);
    if desc.0.None? || desc.1.pos + 4 > |data| then Failed
    else
      var size := Be(data[desc.1.pos..desc.1.pos + 4]);
      var es :- PlainElements(data, limit, ElementType(desc.1.descs[desc.0.value]), size, Placed(data, desc.1));
      Done((JArray(es.0.0), es.0.1), SetHandle(data, es.1, |desc.1.handles|, JArray(es.0.0)))
  }

  function PlainElements(data: seq<Byte>, limit: nat, elem: Byte, n: nat, st: State)
    : (r: Outcome<(seq<JavaValue>, seq<Obj>)>)
    requires Sound(data, st)
    ensures r.Endless? || r == ReadElements(data, elem, n, st)
    decreases |data| - st.pos, 4, n
  {
    if n == 0 then Done(([], []), st)
    else
      var v :- PlainFieldValue(data, limit, if IsPrimitive(elem) then elem else 'L' as int, st);
      var rest :- PlainElements(data, limit, elem, n - 1, v.1);
      Done(([v.0.0] + rest.0.0, v.0.1 + rest.0.1), rest.1)
  }

  // What ends is not cut by a great enough number.

  function Max(a: nat, b: nat): (m: nat)
    ensures m >= a && m >= b
  {
    if a < b then b else a
  }

  lemma {:induction false} EnoughForContent(data: seq<Byte>, st: State) returns (enough: nat)
    requires Sound(data, st) && !ReadContent(data, st).Endless?
    ensures forall limit: nat :: limit >= enough ==> !PlainContent(data, limit, st).Endless?
    decreases |data| - st.pos, 1
  {
    hide Sound, ReadObject, ReadArray, ReadLeaf, PlainObject, PlainArray;
    enough := 0;
    if st.pos < |data| {
      SoundNext(data, st);
      if data[st.pos] == TC_OBJECT {
        enough := EnoughForObject(data, st.Skip(1));
      } else if data[st.pos] == TC_ARRAY {
        enough := EnoughForArray(data, st.Skip(1));
      }
    }
  }

  lemma {:induction false} EnoughForObject(data: seq<Byte>, st: State) returns (enough: nat)
    requires Sound(data, st) && !ReadObject(data, st).Endless?
    ensures forall limit: nat :: limit >= enough ==> !PlainObject(data, limit, st).Endless?
    decreases |data| - st.pos, 6
  {
    hide Sound, ReadClassDesc, ReadClassData, PlainClassData;
    enough := 0;
    var desc := ReadClassDesc(data, st);
    if desc.Done? {
      InData(data, st, Created(data, st));
      enough := EnoughForClassData(data, desc.value, {}, map[], Created(data, st));
      forall limit: nat | limit >= enough
        ensures !PlainObject(data, limit, st).Endless?
      {
        assert !PlainClassData(data, limit, limit, desc.value, map[], Created(data, st)).Endless?;
      }
    }
  }

  lemma {:induction false} EnoughForClassData(data: seq<Byte>, p: Option<nat>, seen: set<nat>, obj: Obj, st: State)
    returns (enough: nat)
    requires Sound(data, st) && Points(p, st) && !ReadClassData(data, p, seen, obj, st).Endless?
    ensures forall limit: nat, n: nat :: limit >= enough && n >= enough ==>
              !PlainClassData(data, limit, n, p, obj, st).Endless?
    decreases |data| - st.pos, 5, Indices(|st.descs|) - seen
  {
    hide ReadOwnData, PlainOwnData;
    enough := 0;
    if p.Some? {
      var d := st.descs[p.value];
      var own := EnoughForOwnData(data, d, obj, st);
      var o := ReadOwnData(data, d, obj, st);
      var rest := 0;
      if o.Done? {
        InData(data, st, o.st);
        rest := EnoughForClassData(data, d.super, if d.Takes() then {} else seen + {p.value}, o.value.0, o.st);
      }
      enough := Max(own, rest) + 1;
      forall limit: nat, n: nat | limit >= enough && n >= enough
        ensures !PlainClassData(data, limit, n, p, obj, st).Endless?
      {
        assert PlainOwnData(data, limit, d, obj, st) == o;
        if o.Done? {
          assert !PlainClassData(data, limit, n - 1, d.super, o.value.0, o.st).Endless?;
        }
      }
    }
  }

  lemma {:induction false} EnoughForOwnData(data: seq<Byte>, d: ClassDesc, obj: Obj, st: State) returns (enough: nat)
    requires Sound(data, st) && !ReadOwnData(data, d, obj, st).Endless?
    ensures forall limit: nat :: limit >= enough ==> !PlainOwnData(data, limit, d, obj, st).Endless?
    decreases |data| - st.pos, 4, |d.fields| + 1
  {
    hide Sound, SkipAnnotation, AtBlock, ReadFields, PlainFields;
    enough := 0;
    if !(d.HasWriteMethod() && AtBlock(data, st)) {
      enough := EnoughForFields(data, d.fields, obj, st);
    }
  }

  lemma {:induction false} EnoughForFields(data: seq<Byte>, fields: seq<FieldInfo>, obj: Obj, st: State)
    returns (enough: nat)
    requires Sound(data, st) && !ReadFields(data, fields, obj, st).Endless?
    ensures forall limit: nat :: limit >= enough ==> !PlainFields(data, limit, fields, obj, st).Endless?
    decreases |data| - st.pos, 4, |fields|
  {
    hide Sound, ReadFieldValue, PlainFieldValue, SetField;
    enough := 0;
    if fields != [] {
      enough := EnoughForField(data, fields[0].typeCode, st);
      var v := ReadFieldValue(data, fields[0].typeCode, st);
      if v.Done? {
        InData(data, st, v.st);
        var rest := EnoughForFields(data, fields[1..], SetField(obj, fields[0].name, v.value.0), v.st);
        enough := Max(enough, rest);
      }
    }
  }

  lemma {:induction false} EnoughForField(data: seq<Byte>, code: Byte, st: State) returns (enough: nat)
    requires Sound(data, st) && !ReadFieldValue(data, code, st).Endless?
    ensures forall limit: nat :: limit >= enough ==> !PlainFieldValue(data, limit, code, st).Endless?
    decreases |data| - st.pos, 2
  {
    hide Sound, ReadContent, PlainContent, PrimitiveValue;
    enough := 0;
    if IsReference(code) {
      enough := EnoughForContent(data, st);
    }
  }

  lemma {:induction false} EnoughForArray(data: seq<Byte>, st: State) returns (enough: nat)
    requires Sound(data, st) && !ReadArray(data, st).Endless?
    ensures forall limit: nat :: limit >= enough ==> !PlainArray(data, limit, st).Endless?
    decreases |data| - st.pos, 6
  {
    hide Sound, ReadClassDesc, ReadElements, PlainElements, ElementType, Be, SetHandle;
    enough := 0;
    var desc := ReadClassDesc(data, st);
    if desc.Done? && desc.value.Some? && desc.st.pos + 4 <= |data| {
      enough := EnoughForElements(data, ElementType(desc.st.descs[desc.value.value]),
                                  Be(data[desc.st.pos..desc.st.pos + 4]), Placed(data, desc.st));
    }
  }

  lemma {:induction false} EnoughForElements(data: seq<Byte>, elem: Byte, n: nat, st: State) returns (enough: nat)
    requires Sound(data, st) && !ReadElements(data, elem, n, st).Endless?
    ensures forall limit: nat :: limit >= enough ==> !PlainElements(data, limit, elem, n, st).Endless?
    decreases |data| - st.pos, 4, n
  {
    hide Sound, ReadFieldValue, PlainFieldValue;
    enough := 0;
    if n > 0 {
      var code := if IsPrimitive(elem) then elem else 'L' as int;
      enough := EnoughForField(data, code, st);
      var v := ReadFieldValue(data, code, st);
      if v.Done? {
        InData(data, st, v.st);
        var rest := EnoughForElements(data, elem, n - 1, v.st);
        enough := Max(enough, rest);
      }
    }
  }

  // The stream as a whole.

  function PlainAll(data: seq<Byte>, limit: nat, st: State, objects: seq<Obj>, result: Obj): (r: Args)
    requires Sound(data, st) && st.objects == |objects|
    ensures r.Diverges? || r == ReadAll(data, st, objects, result)
    decreases |data| - st.pos
  {
    if st.pos >= |data| then Collected(result, objects)
    else if data[st.pos] == TC_ENDBLOCKDATA then PlainAll(data, limit, st.Skip(1), objects, result)
    else if data[st.pos] == TC_RESET then PlainAll(data, limit, st.Skip(1).(handles := []), objects, result)
    else
      match PlainContent(data, limit, st)
      case Failed => Collected(result, objects)
      case Panicked => Panics
      case Endless => Diverges
      case Done(v, next) =>
        PlainAll(data, limit, next, objects + v.1, AsMap(v.0, objects + v.1) + result)
  }

  function PlainArgs(data: seq<Byte>, limit: nat): (r: Args)
    ensures r.Diverges? || r == DeserializeArgs(data)
  {
    PlainAll(data, limit, START.Skip(StartPos(data)), [], map[])
  }

  lemma {:induction false} EnoughForAll(data: seq<Byte>, st: State, objects: seq<Obj>, result: Obj)
    returns (enough: nat)
    requires Sound(data, st) && st.objects == |objects| && !ReadAll(data, st, objects, result).Diverges?
    ensures forall limit: nat :: limit >= enough ==> !PlainAll(data, limit, st, objects, result).Diverges?
    decreases |data| - st.pos
  {
    hide Sound, ReadContent, PlainContent, AsMap;
    enough := 0;
    if st.pos < |data| {
      SoundNext(data, st);
      SoundReset(data, st);
      if data[st.pos] == TC_ENDBLOCKDATA {
        enough := EnoughForAll(data, st.Skip(1), objects, result);
      } else if data[st.pos] == TC_RESET {
        enough := EnoughForAll(data, st.Skip(1).(handles := []), objects, result);
      } else {
        enough := EnoughForContent(data, st);
        var r := ReadContent(data, st);
        if r.Done? {
          InData(data, st, r.st);
          var rest := EnoughForAll(data, r.st, objects + r.value.1, AsMap(r.value.0, objects + r.value.1) + result);
          enough := Max(enough, rest);
        }
      }
    }
  }

  /**
   A content reads as the recursion of the source reads it: without end exactly if that is cut
   whatever the number, and otherwise to the result it has from some number on.
   */
  lemma ContentIsPlain(data: seq<Byte>, st: State)
    requires Sound(data, st)
    ensures ReadContent(data, st).Endless? <==> forall limit: nat :: PlainContent(data, limit, st).Endless?
    ensures !ReadContent(data, st).Endless? ==> exists enough: nat :: ContentSettles(data, st, enough)
  {
    hide Sound, ReadContent, PlainContent;
    if !ReadContent(data, st).Endless? {
      var enough := EnoughForContent(data, st);
      assert !PlainContent(data, enough, st).Endless?;
      assert ContentSettles(data, st, enough);
    }
  }

  ghost predicate ContentSettles(data: seq<Byte>, st: State, enough: nat)
    requires Sound(data, st)
  {
    forall limit: nat :: limit >= enough ==> PlainContent(data, limit, st) == ReadContent(data, st)
  }

  /** The same for class data. */
  lemma ClassDataIsPlain(data: seq<Byte>, p: Option<nat>, obj: Obj, st: State)
    requires Sound(data, st) && Points(p, st)
    ensures ReadClassData(data, p, {}, obj, st).Endless? <==>
            forall limit: nat :: PlainClassData(data, limit, limit, p, obj, st).Endless?
    ensures !ReadClassData(data, p, {}, obj, st).Endless? ==>
              exists enough: nat :: ClassDataSettle(data, p, obj, st, enough)
  {
    hide Sound, ReadClassData, PlainClassData;
    if !ReadClassData(data, p, {}, obj, st).Endless? {
      var enough := EnoughForClassData(data, p, {}, obj, st);
      assert !PlainClassData(data, enough, enough, p, obj, st).Endless?;
      assert ClassDataSettle(data, p, obj, st, enough);
    }
  }

  ghost predicate ClassDataSettle(data: seq<Byte>, p: Option<nat>, obj: Obj, st: State, enough: nat)
    requires Sound(data, st) && Points(p, st)
  {
    forall limit: nat :: limit >= enough ==>
      PlainClassData(data, limit, limit, p, obj, st) == ReadClassData(data, p, {}, obj, st)
  }

  /** The same for decoding a stream. */
  lemma DecodingIsPlain(data: seq<Byte>)
    ensures DeserializeArgs(data) == Diverges <==> forall limit: nat :: PlainArgs(data, limit) == Diverges
    ensures DeserializeArgs(data) != Diverges ==> exists enough: nat :: ArgsSettle(data, enough)
  {
    hide ReadAll, PlainAll;
    if DeserializeArgs(data) != Diverges {
      var enough := EnoughForAll(data, START.Skip(StartPos(data)), [], map[]);
      assert PlainArgs(data, enough) != Diverges;
      assert ArgsSettle(data, enough);
    }
  }

  ghost predicate ArgsSettle(data: seq<Byte>, enough: nat) {
    forall limit: nat :: limit >= enough ==> PlainArgs(data, limit) == DeserializeArgs(data)
  }

  // The skipping path.

  lemma {:induction false} IdleSkips(data: seq<Byte>, p: Option<nat>, seen: set<nat>, st: State)
    requires Sound(data, st) && Points(p, st) && Chained(st.descs) && Idle(st.descs, p)
    ensures SkipClassData(data, p, seen, st).Endless?
    decreases Indices(|st.descs|) - seen
  {
    hide Idle, Nth, SkipOwnData;
    IdleNext(st.descs, p);
    if p.value !in seen {
      IdleSkips(data, st.descs[p.value].super, seen + {p.value}, st);
    }
  }

  lemma {:induction false} SkipSeenIsIrrelevant(data: seq<Byte>, p: Option<nat>, a: set<nat>, b: set<nat>, st: State)
    requires Sound(data, st) && Points(p, st) && Chained(st.descs)
    requires Leads(st.descs, a, p) && Leads(st.descs, b, p)
    ensures SkipClassData(data, p, a, st) == SkipClassData(data, p, b, st)
    decreases Indices(|st.descs|) - a
  {
    hide Idle, Nth, SkipOwnData, Leads;
    if p.Some? {
      var c := p.value;
      if Idle(st.descs, p) {
        IdleSkips(data, p, a, st);
        IdleSkips(data, p, b, st);
      } else {
        if c in a {
          LeadsFrom(st.descs, a, c);
        }
        if c in b {
          LeadsFrom(st.descs, b, c);
        }
        if !st.descs[c].Takes() {
          LeadsOn(st.descs, a, c);
          LeadsOn(st.descs, b, c);
          SkipSeenIsIrrelevant(data, st.descs[c].super, a + {c}, b + {c}, st);
        }
      }
    }
  }

  lemma SkipDataUnfolds(data: seq<Byte>, c: nat, st: State)
    requires Sound(data, st) && c < |st.descs|
    ensures var d := st.descs[c];
            var o := SkipOwnData(data, d, st);
            SkipClassData(data, Some(c), {}, st) ==
              if o.Done? then Behind(o.value, SkipClassData(data, d.super, {}, o.st)) else o
  {
    hide SkipOwnData, Leads, Sound;
    var d := st.descs[c];
    if !d.Takes() {
      SoundChain(data, st);
      NothingLeads(st.descs, Some(c));
      NothingLeads(st.descs, d.super);
      LeadsOn(st.descs, {}, c);
      assert {} + {c} == {c};
      SkipSeenIsIrrelevant(data, d.super, {c}, {}, st);
    }
  }

  function Behind(made: seq<Obj>, r: Outcome<seq<Obj>>): Outcome<seq<Obj>> {
    if r.Done? then Done(made + r.value, r.st) else r
  }

  /** n more classes of the skipping recursion. */
  function PlainSkipClassData(data: seq<Byte>, limit: nat, n: nat, p: Option<nat>, st: State): (r: Outcome<seq<Obj>>)
    requires Sound(data, st) && Points(p, st)
    ensures r.Endless? || r == SkipClassData(data, p, {}, st)
    decreases n
  {
    match p
    case None => Done([], st)
    case Some(c) =>
      if n == 0 then Endless
      else
        SkipDataUnfolds(data, c, st);
        var d := st.descs[c];
        var o :- PlainSkipOwnData(data, limit, d, st);
        Behind(o.0, PlainSkipClassData(data, limit, n - 1, d.super, o.1))
  }

  function PlainSkipOwnData(data: seq<Byte>, limit: nat, d: ClassDesc, st: State): (r: Outcome<seq<Obj>>)
    requires Sound(data, st)
    ensures r.Endless? || r == SkipOwnData(data, d, st)
  {
    if d.HasWriteMethod() && AtBlock(data, st) then
      var a :- SkipAnnotation(data, st);
      Done([], a.1)
    else
      var f :- PlainSkipFields(data, limit, d.fields, st);
      var a :- SkipWritten(data, d, f.1);
      Done(f.0, a.1)
  }

  function PlainSkipFields(data: seq<Byte>, limit: nat, fields: seq<FieldInfo>, st: State): (r: Outcome<seq<Obj>>)
    requires Sound(data, st)
    ensures r.Endless? || r == SkipFields(data, fields, st)
    decreases |fields|
  {
    if fields == [] then Done([], st)
    else
      var v :- PlainSkipField(data, limit, fields[0].typeCode, st);
      var rest :- PlainSkipFields(data, limit, fields[1..], v.1);
      Done(v.0 + rest.0, rest.1)
  }

  function PlainSkipField(data: seq<Byte>, limit: nat, code: Byte, st: State): (r: Outcome<seq<Obj>>)
    requires Sound(data, st)
    ensures r.Endless? || r == SkipField(data, code, st)
  {
    if IsPrimitive(code) then SkipField(data, code, st)
    else
      var v :- PlainContent(data, limit, st);
      Done(v.0.1, v.1)
  }

  lemma {:induction false} EnoughToSkip(data: seq<Byte>, p: Option<nat>, seen: set<nat>, st: State)
    returns (enough: nat)
    requires Sound(data, st) && Points(p, st) && !SkipClassData(data, p, seen, st).Endless?
    ensures forall limit: nat, n: nat :: limit >= enough && n >= enough ==>
              !PlainSkipClassData(data, limit, n, p, st).Endless?
    decreases |data| - st.pos, Indices(|st.descs|) - seen
  {
    hide SkipOwnData, PlainSkipOwnData;
    enough := 0;
    if p.Some? {
      var d := st.descs[p.value];
      var own := EnoughToSkipOwn(data, d, st);
      var o := SkipOwnData(data, d, st);
      var rest := 0;
      if o.Done? {
        InData(data, st, o.st);
        rest := EnoughToSkip(data, d.super, if d.Takes() then {} else seen + {p.value}, o.st);
      }
      enough := Max(own, rest) + 1;
      forall limit: nat, n: nat | limit >= enough && n >= enough
        ensures !PlainSkipClassData(data, limit, n, p, st).Endless?
      {
        assert PlainSkipOwnData(data, limit, d, st) == o;
        if o.Done? {
          assert !PlainSkipClassData(data, limit, n - 1, d.super, o.st).Endless?;
        }
      }
    }
  }

  lemma EnoughToSkipOwn(data: seq<Byte>, d: ClassDesc, st: State) returns (enough: nat)
    requires Sound(data, st) && !SkipOwnData(data, d, st).Endless?
    ensures forall limit: nat :: limit >= enough ==> !PlainSkipOwnData(data, limit, d, st).Endless?
  {
    hide Sound, SkipAnnotation, AtBlock, SkipFields, PlainSkipFields;
    enough := 0;
    if !(d.HasWriteMethod() && AtBlock(data, st)) {
      enough := EnoughToSkipFields(data, d.fields, st);
    }
  }

  lemma {:induction false} EnoughToSkipFields(data: seq<Byte>, fields: seq<FieldInfo>, st: State) returns (enough: nat)
    requires Sound(data, st) && !SkipFields(data, fields, st).Endless?
    ensures forall limit: nat :: limit >= enough ==> !PlainSkipFields(data, limit, fields, st).Endless?
    decreases |fields|
  {
    hide Sound, SkipField, PlainSkipField;
    enough := 0;
    if fields != [] {
      enough := EnoughToSkipField(data, fields[0].typeCode, st);
      var v := SkipField(data, fields[0].typeCode, st);
      if v.Done? {
        var rest := EnoughToSkipFields(data, fields[1..], v.st);
        enough := Max(enough, rest);
      }
    }
  }

  lemma EnoughToSkipField(data: seq<Byte>, code: Byte, st: State) returns (enough: nat)
    requires Sound(data, st) && !SkipField(data, code, st).Endless?
    ensures forall limit: nat :: limit >= enough ==> !PlainSkipField(data, limit, code, st).Endless?
  {
    hide Sound, ReadContent, PlainContent, ReadFieldValue;
    enough := 0;
    if !IsPrimitive(code) {
      enough := EnoughForContent(data, st);
    }
  }

  /** Skipping class data is the skipping recursion of the source in the same sense. */
  lemma SkippingIsPlain(data: seq<Byte>, p: Option<nat>, st: State)
    requires Sound(data, st) && Points(p, st)
    ensures SkipClassData(data, p, {}, st).Endless? <==>
            forall limit: nat :: PlainSkipClassData(data, limit, limit, p, st).Endless?
    ensures !SkipClassData(data, p, {}, st).Endless? ==> exists enough: nat :: SkippingSettles(data, p, st, enough)
  {
    hide Sound, SkipClassData, PlainSkipClassData;
    if !SkipClassData(data, p, {}, st).Endless? {
      var enough := EnoughToSkip(data, p, {}, st);
      assert !PlainSkipClassData(data, enough, enough, p, st).Endless?;
      assert SkippingSettles(data, p, st, enough);
    }
  }

  ghost predicate SkippingSettles(data: seq<Byte>, p: Option<nat>, st: State, enough: nat)
    requires Sound(data, st) && Points(p, st)
  {
    forall limit: nat :: limit >= enough ==>
      PlainSkipClassData(data, limit, limit, p, st) == SkipClassData(data, p, {}, st)
  }
}
