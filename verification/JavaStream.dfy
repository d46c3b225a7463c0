/**
 The Java object stream dialect that the Dubbo decoder reads (dubboport/java_deserializer.go),
 as functions of the bytes and of the reader's state.
 */
module JavaStream {
  import opened Wrappers
  import opened Bytes

  const TC_NULL: Byte := 0x70
  const TC_REFERENCE: Byte := 0x71
  const TC_CLASSDESC: Byte := 0x72
  const TC_OBJECT: Byte := 0x73
  const TC_STRING: Byte := 0x74
  const TC_ARRAY: Byte := 0x75
  const TC_CLASS: Byte := 0x76
  const TC_BLOCKDATA: Byte := 0x77
  const TC_ENDBLOCKDATA: Byte := 0x78
  const TC_RESET: Byte := 0x79
  const TC_BLOCKDATALONG: Byte := 0x7A
  const TC_LONGSTRING: Byte := 0x7C
  const TC_ENUM: Byte := 0x7E

  type Name = seq<Byte>

  datatype FieldInfo = FieldInfo(typeCode: Byte, name: Name, className: Name)

  /** A class descriptor; super is the index of another one, as the original's pointer is. */
  datatype ClassDesc = ClassDesc(className: Name, flags: Byte, fields: seq<FieldInfo>, super: Option<nat>) {

    predicate HasWriteMethod() {
      flags % 2 == 1
    }

    predicate Annotated() {
      flags % 2 == 1 && flags / 2 % 2 == 1
    }

    /** Its class data cannot be read without taking a byte. */
    predicate Takes() {
      fields != [] || HasWriteMethod()
    }
  }

  /**
   What a reader returns or a handle names. Objects and descriptors are named by their index.
   Floating-point numbers stay raw.
   */
  datatype JavaValue =
    | JNull
    | JInt(i: int)
    | JChar(c: int)
    | JBool(b: bool)
    | JReal(raw: seq<Byte>)
    | JStr(s: Name)
    | JObject(id: nat)
    | JArray(items: seq<JavaValue>)
    | JClass(name: Name)
    | JDesc(desc: nat)

  type Obj = map<Name, JavaValue>

  /** The cursor, the handle table, the descriptors and the number of objects created so far. */
  datatype State = State(pos: nat, handles: seq<JavaValue>, descs: seq<ClassDesc>, objects: nat) {

    function Skip(n: nat): State {
      this.(pos := pos + n)
    }

    function Push(v: JavaValue): State {
      this.(handles := handles + [v])
    }
  }

  const START: State := State(0, [], [], 0)

  /**
   Failed is an error return, Panicked a slice with a negative bound. Endless is a recursion that
   comes back to where it was.
   */
  datatype Outcome<+T> = Done(value: T, st: State) | Failed | Panicked | Endless {

    predicate IsFailure() {
      !Done?
    }

    function PropagateFailure<U>(): Outcome<U>
      requires !Done?
    {
      if Failed? then Failed else if Panicked? then Panicked else Endless
    }

    function Extract(): (T, State)
      requires Done?
    {
      (value, st)
    }
  }

  ghost predicate Known(v: JavaValue, st: State) {
    (v.JObject? ==> v.id < st.objects) && (v.JDesc? ==> v.desc < |st.descs|)
  }

  ghost predicate Points(p: Option<nat>, st: State) {
    p.Some? ==> p.value < |st.descs|
  }

  /** The cursor is within the data; handles and super pointers name what exists. */
  ghost predicate Sound(data: seq<Byte>, st: State) {
    && st.pos <= |data|
    && (forall i :: 0 <= i < |st.handles| ==> Known(st.handles[i], st))
    && (forall i :: 0 <= i < |st.descs| ==> Points(st.descs[i].super, st))
  }

  /** The cursor does not move back; no handle and no descriptor of before is changed or lost. */
  ghost predicate Grows(data: seq<Byte>, a: State, b: State) {
    && Sound(data, b) && a.pos <= b.pos
    && a.handles <= b.handles && a.descs <= b.descs && a.objects <= b.objects
  }

  // Primitive values.

  predicate IsPrimitive(code: Byte) {
    code in {'B' as int, 'C' as int, 'D' as int, 'F' as int, 'I' as int, 'J' as int, 'S' as int, 'Z' as int}
  }

  predicate IsReference(code: Byte) {
    code == '[' as int || code == 'L' as int
  }

  function Width(code: Byte): (n: nat)
    ensures 1 <= n <= 8
  {
    if code == 'B' as int || code == 'Z' as int then 1
    else if code == 'C' as int || code == 'S' as int then 2
    else if code == 'I' as int || code == 'F' as int then 4
    else 8
  }

  /** Two's complement of a big-endian value. */
  function Signed(b: seq<Byte>): int {
    if b != [] && b[0] >= 128 then Be(b) - Pow256(|b|) else Be(b)
  }

  function PrimitiveValue(code: Byte, b: seq<Byte>): JavaValue
    requires |b| == Width(code)
  {
    if code == 'C' as int then JChar(Be(b))
    else if code == 'Z' as int then JBool(b[0] != 0)
    else if code == 'F' as int || code == 'D' as int then JReal(b)
    else JInt(Signed(b))
  }

  function ReadPrimitive(data: seq<Byte>, code: Byte, st: State): (r: Outcome<JavaValue>)
    requires Sound(data, st)
    ensures r.Done? ==> Grows(data, st, r.st) && st.pos < r.st.pos && Known(r.value, r.st)
    ensures r.Done? ==> r.st == st.Skip(Width(code))
  {
    if st.pos + Width(code) > |data| then Failed
    else Done(PrimitiveValue(code, data[st.pos..st.pos + Width(code)]), st.Skip(Width(code)))
  }

  // Strings, handles and block data.

  function ReadUTF(data: seq<Byte>, st: State): (r: Outcome<Name>)
    requires Sound(data, st)
    ensures r.Done? ==> Grows(data, st, r.st) && st.pos < r.st.pos && r.st.objects == st.objects
    ensures r.Done? ==> r.st.descs == st.descs
  {
    if st.pos + 2 > |data| then Failed
    else
      var n := Be(data[st.pos..st.pos + 2]);
      var from := st.pos + 2;
      if from + n > |data| then Failed else Done(data[from..from + n], st.(pos := from + n))
  }

  /** After TC_STRING. */
  function ReadString(data: seq<Byte>, st: State): (r: Outcome<Name>)
    requires Sound(data, st)
    ensures r.Done? ==> Grows(data, st, r.st) && st.pos < r.st.pos && r.st.objects == st.objects
    ensures r.Done? ==> r.st.descs == st.descs
  {
    var r :- ReadUTF(data, st);
    Done(r.0, r.1.Push(JStr(r.0)))
  }

  const MAX_INT: int := 0x7FFF_FFFF_FFFF_FFFF

  /**
   After TC_LONGSTRING: a length beyond the signed range is negative, and one that takes the cursor
   beyond it passes the check for the end of the data.
   */
  function ReadLongString(data: seq<Byte>, st: State): (r: Outcome<Name>)
    requires Sound(data, st)
    ensures r.Done? ==> Grows(data, st, r.st) && st.pos < r.st.pos && r.st.objects == st.objects
    ensures r.Done? ==> r.st.descs == st.descs
  {
    if st.pos + 8 > |data| then Failed
    else
      var n := Be(data[st.pos..st.pos + 8]);
      var from := st.pos + 8;
      if n > MAX_INT then Failed
      else if from + n > MAX_INT then Panicked
      else if from + n > |data| then Failed
      else Done(data[from..from + n], st.(pos := from + n).Push(JStr(data[from..from + n])))
  }

  /** After TC_REFERENCE: handles count from zero, with no base. */
  function ReadHandle(data: seq<Byte>, st: State): (r: Outcome<JavaValue>)
    requires Sound(data, st)
    ensures r.Done? ==> Grows(data, st, r.st) && st.pos < r.st.pos && Known(r.value, r.st)
    ensures r.Done? ==> r.st == st.Skip(4)
  {
    if st.pos + 4 > |data| then Failed
    else
      var h := Be(data[st.pos..st.pos + 4]);
      if h >= |st.handles| then Failed else Done(st.handles[h], st.Skip(4))
  }

  function ReadObjectString(data: seq<Byte>, st: State): (r: Outcome<Name>)
    requires Sound(data, st)
    ensures r.Done? ==> Grows(data, st, r.st) && st.pos < r.st.pos && r.st.objects == st.objects
    ensures r.Done? ==> r.st.descs == st.descs
  {
    if st.pos >= |data| then Failed
    else if data[st.pos] == TC_STRING then ReadString(data, st.Skip(1))
    else if data[st.pos] == TC_LONGSTRING then ReadLongString(data, st.Skip(1))
    else if data[st.pos] == TC_REFERENCE then
      var r :- ReadHandle(data, st.Skip(1));
      if r.0.JStr? then Done(r.0.s, r.1) else Failed
    else Failed
  }

  /** One block of TC_BLOCKDATA or TC_BLOCKDATALONG. */
  function SkipBlock(data: seq<Byte>, st: State): (r: Outcome<()>)
    requires Sound(data, st)
    ensures r.Done? ==> Grows(data, st, r.st) && st.pos < r.st.pos && r.st == st.(pos := r.st.pos)
  {
    if st.pos >= |data| then Failed
    else if data[st.pos] == TC_BLOCKDATA then
      if st.pos + 1 >= |data| then Failed
      else
        var n: nat := data[st.pos + 1];
        if st.pos + 2 + n > |data| then Failed else Done((), st.Skip(2 + n))
    else if data[st.pos] == TC_BLOCKDATALONG then
      if st.pos + 5 > |data| then Failed
      else
        var n := Be(data[st.pos + 1..st.pos + 5]);
        if st.pos + 5 + n > |data| then Failed else Done((), st.Skip(5 + n))
    else if data[st.pos] == TC_ENDBLOCKDATA then Done((), st.Skip(1))
    else Failed
  }

  /** Blocks up to and with TC_ENDBLOCKDATA. */
  function SkipAnnotation(data: seq<Byte>, st: State): (r: Outcome<()>)
    requires Sound(data, st)
    ensures r.Done? ==> Grows(data, st, r.st) && st.pos < r.st.pos && r.st == st.(pos := r.st.pos)
    decreases |data| - st.pos
  {
    if st.pos >= |data| then Failed
    else if data[st.pos] == TC_ENDBLOCKDATA then Done((), st.Skip(1))
    else if data[st.pos] == TC_BLOCKDATA || data[st.pos] == TC_BLOCKDATALONG then
      var b :- SkipBlock(data, st);
      SkipAnnotation(data, b.1)
    else Failed
  }

  // Class descriptors.

  function ReadFieldInfos(data: seq<Byte>, n: nat, st: State): (r: Outcome<seq<FieldInfo>>)
    requires Sound(data, st)
    ensures r.Done? ==> Grows(data, st, r.st) && r.st.objects == st.objects && |r.value| == n
    decreases n
    ensures r.Done? ==> r.st.descs == st.descs
  {
    if n == 0 then Done([], st)
    else
      var f :- ReadFieldInfo(data, st);
      var rest :- ReadFieldInfos(data, n - 1, f.1);
      Done([f.0] + rest.0, rest.1)
  }

  function ReadFieldInfo(data: seq<Byte>, st: State): (r: Outcome<FieldInfo>)
    requires Sound(data, st)
    ensures r.Done? ==> Grows(data, st, r.st) && r.st.objects == st.objects
    ensures r.Done? ==> r.st.descs == st.descs
  {
    if st.pos >= |data| then Failed
    else
      var code := data[st.pos];
      var name :- ReadUTF(data, st.Skip(1));
      if IsReference(code) then
        var cn :- ReadObjectString(data, name.1);
        Done(FieldInfo(code, name.0, cn.0), cn.1)
      else Done(FieldInfo(code, name.0, []), name.1)
  }

  /**
   A descriptor, none for TC_NULL. A descriptor takes its handle before its flags, fields and super
   are read, so a reference in its own super chain finds it and closes a cycle.
   */
  function ReadClassDesc(data: seq<Byte>, st: State): (r: Outcome<Option<nat>>)
    requires Sound(data, st)
    ensures r.Done? ==> Grows(data, st, r.st) && st.pos < r.st.pos && r.st.objects == st.objects
    ensures r.Done? ==> Points(r.value, r.st)
    decreases |data| - st.pos
  {
    if st.pos >= |data| then Failed
    else if data[st.pos] == TC_NULL then Done(None, st.Skip(1))
    else if data[st.pos] == TC_REFERENCE then
      var r :- ReadHandle(data, st.Skip(1));
      if r.0.JDesc? then Done(Some(r.0.desc), r.1) else Failed
    else if data[st.pos] == TC_CLASSDESC then
      var name :- ReadUTF(data, st.Skip(1));
      var body :- ReadDescBody(data, name.0, name.1);
      var super :- ReadClassDesc(data, body.1);
      Done(Some(|name.1.descs|), SetSuper(data, super.1, |name.1.descs|, super.0))
    else Failed
  }

  function SetSuper(data: seq<Byte>, st: State, d: nat, super: Option<nat>): (r: State)
    requires Sound(data, st) && d < |st.descs| && Points(super, st)
    ensures Sound(data, r) && |r.descs| == |st.descs| && r.descs[..d] == st.descs[..d]
    ensures r == st.(descs := r.descs)
  {
    st.(descs := st.descs[d := st.descs[d].(super := super)])
  }

  /** From the version number to the class annotation, for a new descriptor with a new handle. */
  function ReadDescBody(data: seq<Byte>, name: Name, st: State): (r: Outcome<()>)
    requires Sound(data, st)
    ensures r.Done? ==> Grows(data, st, r.st) && st.pos < r.st.pos && r.st.objects == st.objects
    ensures r.Done? ==> |r.st.descs| == |st.descs| + 1
  {
    if st.pos + 11 > |data| then Failed
    else
      var d := |st.descs|;
      var flags := data[st.pos + 8];
      var n := Be(data[st.pos + 9..st.pos + 11]);
      var st1 := State(st.pos + 11, st.handles + [JDesc(d)], st.descs + [ClassDesc(name, flags, [], None)], st.objects);
      var fields :- ReadFieldInfos(data, n, st1);
      var desc := ClassDesc(name, flags, fields.0, None);
      var st2 := fields.1.(descs := st.descs + [desc]);
      if desc.Annotated() then SkipAnnotation(data, st2) else Done((), st2)
  }

  // Contents. Each returns the objects it created, the ones created first in front.

  function ReadContent(data: seq<Byte>, st: State): (r: Outcome<(JavaValue, seq<Obj>)>)
    requires Sound(data, st)
    ensures r.Done? ==> Grows(data, st, r.st) && st.pos < r.st.pos
    ensures r.Done? ==> Known(r.value.0, r.st) && r.st.objects == st.objects + |r.value.1|
    decreases |data| - st.pos, 1
  {
    if st.pos >= |data| then Failed
    else
      var tc := data[st.pos];
      if tc == TC_OBJECT then ReadObject(data, st.Skip(1))
      else if tc == TC_ARRAY then ReadArray(data, st.Skip(1))
      else ReadLeaf(data, tc, st)
  }

  /** After TC_ENUM: the name of the constant, which takes its handle last. */
  function ReadEnum(data: seq<Byte>, st: State): (r: Outcome<Name>)
    requires Sound(data, st)
    ensures r.Done? ==> Grows(data, st, r.st) && st.pos < r.st.pos && r.st.objects == st.objects
  {
    var desc :- ReadClassDesc(data, st);
    var s :- ReadObjectString(data, desc.1);
    Done(s.0, s.1.Push(JStr(s.0)))
  }

  /** After TC_CLASS: the name of the class, empty for none. */
  function ReadClass(data: seq<Byte>, st: State): (r: Outcome<Name>)
    requires Sound(data, st)
    ensures r.Done? ==> Grows(data, st, r.st) && st.pos < r.st.pos && r.st.objects == st.objects
  {
    var desc :- ReadClassDesc(data, st);
    var name := if desc.0.Some? then desc.1.descs[desc.0.value].className else [];
    Done(name, desc.1.Push(JStr(name)))
  }

  /** The contents that hold no other content. */
  function ReadLeaf(data: seq<Byte>, tc: Byte, st: State): (r: Outcome<(JavaValue, seq<Obj>)>)
    requires Sound(data, st) && st.pos < |data| && data[st.pos] == tc
    ensures r.Done? ==> Grows(data, st, r.st) && st.pos < r.st.pos
    ensures r.Done? ==> Known(r.value.0, r.st) && r.st.objects == st.objects && r.value.1 == []
  {
    var next := st.Skip(1);
    if tc == TC_NULL then Done((JNull, []), next)
    else if tc == TC_REFERENCE then
      var v :- ReadHandle(data, next);
      Done((v.0, []), v.1)
    else if tc == TC_STRING then
      var s :- ReadString(data, next);
      Done((JStr(s.0), []), s.1)
    else if tc == TC_LONGSTRING then
      var s :- ReadLongString(data, next);
      Done((JStr(s.0), []), s.1)
    else if tc == TC_ENUM then
      var s :- ReadEnum(data, next);
      Done((JStr(s.0), []), s.1)
    else if tc == TC_CLASS then
      var name :- ReadClass(data, next);
      Done((JClass(name.0), []), name.1)
    else if tc == TC_BLOCKDATA || tc == TC_BLOCKDATALONG then
      var b :- SkipBlock(data, st);
      Done((JNull, []), b.1)
    else Failed
  }

  function ReadObject(data: seq<Byte>, st: State): (r: Outcome<(JavaValue, seq<Obj>)>)
    requires Sound(data, st)
    ensures r.Done? ==> Grows(data, st, r.st)
    ensures r.Done? ==> Known(r.value.0, r.st) && r.st.objects == st.objects + |r.value.1|
    decreases |data| - st.pos, 6
  {
    var desc :- ReadClassDesc(data, st);
    var id := st.objects;
    var st1 := State(desc.1.pos, desc.1.handles + [JObject(id)], desc.1.descs, id + 1);
    var o :- ReadClassData(data, desc.0, {}, map[], st1);
    Done((JObject(id), [o.0.0] + o.0.1), o.1)
  }

  ghost function Indices(n: nat): (r: set<nat>)
    ensures forall k: nat :: k in r <==> k < n
  {
    if n == 0 then {} else Indices(n - 1) + {n - 1}
  }

  /**
   Fills an object class by class, from the most derived one up. Coming back to a class of seen,
   the classes passed since the last byte was taken, the original goes on without end.
   */
  function ReadClassData(data: seq<Byte>, p: Option<nat>, seen: set<nat>, obj: Obj, st: State): (r: Outcome<(Obj, seq<Obj>)>)
    requires Sound(data, st) && Points(p, st)
    ensures r.Done? ==> Grows(data, st, r.st) && r.st.objects == st.objects + |r.value.1|
    decreases |data| - st.pos, 5, Indices(|st.descs|) - seen
  {
    match p
    case None => Done((obj, []), st)
    case Some(c) =>
      if c in seen then Endless
      else
        var d := st.descs[c];
        var o :- ReadOwnData(data, d, obj, st);
        var s :- ReadClassData(data, d.super, if d.Takes() then {} else seen + {c}, o.0.0, o.1);
        Done((s.0.0, o.0.1 + s.0.1), s.1)
  }

  /** The part of one class; a name set before stays. */
  function ReadOwnData(data: seq<Byte>, d: ClassDesc, obj: Obj, st: State): (r: Outcome<(Obj, seq<Obj>)>)
    requires Sound(data, st)
    ensures r.Done? ==> Grows(data, st, r.st) && r.st.objects == st.objects + |r.value.1|
    ensures d.Takes() && r.Done? ==> st.pos < r.st.pos
    ensures !d.Takes() ==> r == Done((obj, []), st)
    decreases |data| - st.pos, 4, |d.fields| + 1
  {
    if d.HasWriteMethod() && AtBlock(data, st) then
      var a :- SkipAnnotation(data, st);
      Done((obj, []), a.1)
    else
      var f :- ReadFields(data, d.fields, obj, st);
      var a :- SkipWritten(data, d, f.1);
      Done(f.0, a.1)
  }

  predicate AtBlock(data: seq<Byte>, st: State) {
    st.pos < |data| && (data[st.pos] == TC_BLOCKDATA || data[st.pos] == TC_BLOCKDATALONG)
  }

  function SkipWritten(data: seq<Byte>, d: ClassDesc, st: State): (r: Outcome<()>)
    requires Sound(data, st)
    ensures r.Done? ==> Grows(data, st, r.st) && r.st == st.(pos := r.st.pos)
    ensures d.HasWriteMethod() && r.Done? ==> st.pos < r.st.pos
  {
    if d.HasWriteMethod() then SkipAnnotation(data, st) else Done((), st)
  }

  function SetField(obj: Obj, name: Name, v: JavaValue): Obj {
    if name in obj then obj else obj[name := v]
  }

  function ReadFields(data: seq<Byte>, fields: seq<FieldInfo>, obj: Obj, st: State): (r: Outcome<(Obj, seq<Obj>)>)
    requires Sound(data, st)
    ensures r.Done? ==> Grows(data, st, r.st) && r.st.objects == st.objects + |r.value.1|
    ensures r.Done? && fields != [] ==> st.pos < r.st.pos
    decreases |data| - st.pos, 4, |fields|
  {
    if fields == [] then Done((obj, []), st)
    else
      var v :- ReadFieldValue(data, fields[0].typeCode, st);
      var rest :- ReadFields(data, fields[1..], SetField(obj, fields[0].name, v.0.0), v.1);
      Done((rest.0.0, v.0.1 + rest.0.1), rest.1)
  }

  function ReadFieldValue(data: seq<Byte>, code: Byte, st: State): (r: Outcome<(JavaValue, seq<Obj>)>)
    requires Sound(data, st)
    ensures r.Done? ==> Grows(data, st, r.st) && st.pos < r.st.pos
    ensures r.Done? ==> Known(r.value.0, r.st) && r.st.objects == st.objects + |r.value.1|
    decreases |data| - st.pos, 2
  {
    if IsPrimitive(code) then
      var v :- ReadPrimitive(data, code, st);
      Done((v.0, []), v.1)
    else if IsReference(code) then ReadContent(data, st)
    else Failed
  }

  /** The element type is the letter after the bracket of the array's class name. */
  function ElementType(d: ClassDesc): Byte {
    if |d.className| >= 2 && d.className[0] == '[' as int then d.className[1] else 'L' as int
  }

  /** The array's handle names nothing until all elements are read. */
  function ReadArray(data: seq<Byte>, st: State): (r: Outcome<(JavaValue, seq<Obj>)>)
    requires Sound(data, st)
    ensures r.Done? ==> Grows(data, st, r.st)
    ensures r.Done? ==> Known(r.value.0, r.st) && r.st.objects == st.objects + |r.value.1|
    decreases |data| - st.pos, 6
  {
    var desc :- ReadClassDesc(data, st);
    if desc.0.None? || desc.1.pos + 4 > |data| then Failed
    else
      var size := Be(data[desc.1.pos..desc.1.pos + 4]);
      var es :- ReadElements(data, ElementType(desc.1.descs[desc.0.value]), size, desc.1.Skip(4).Push(JNull));
      Done((JArray(es.0.0), es.0.1), SetHandle(data, es.1, |desc.1.handles|, JArray(es.0.0)))
  }

  function SetHandle(data: seq<Byte>, st: State, h: nat, v: JavaValue): (r: State)
    requires Sound(data, st) && h < |st.handles| && Known(v, st)
    ensures Sound(data, r) && |r.handles| == |st.handles| && r.handles[..h] == st.handles[..h]
    ensures r == st.(handles := r.handles)
  {
    st.(handles := st.handles[h := v])
  }

  function ReadElements(data: seq<Byte>, elem: Byte, n: nat, st: State): (r: Outcome<(seq<JavaValue>, seq<Obj>)>)
    requires Sound(data, st)
    ensures r.Done? ==> Grows(data, st, r.st) && |r.value.0| == n
    ensures r.Done? ==> r.st.objects == st.objects + |r.value.1|
    decreases |data| - st.pos, 4, n
  {
    if n == 0 then Done(([], []), st)
    else
      var v :- ReadFieldValue(data, if IsPrimitive(elem) then elem else 'L' as int, st);
      var rest :- ReadElements(data, elem, n - 1, v.1);
      Done(([v.0.0] + rest.0.0, v.0.1 + rest.0.1), rest.1)
  }

  // Skipping class data, the second path over the same bytes.

  function SkipFields(data: seq<Byte>, fields: seq<FieldInfo>, st: State): (r: Outcome<seq<Obj>>)
    requires Sound(data, st)
    ensures r.Done? ==> Grows(data, st, r.st) && r.st.objects == st.objects + |r.value|
    ensures r.Done? && fields != [] ==> st.pos < r.st.pos
    decreases |fields|
  {
    if fields == [] then Done([], st)
    else
      var v :- SkipField(data, fields[0].typeCode, st);
      var rest :- SkipFields(data, fields[1..], v.1);
      Done(v.0 + rest.0, rest.1)
  }

  /** Whatever is not primitive is skipped as a content. */
  function SkipField(data: seq<Byte>, code: Byte, st: State): (r: Outcome<seq<Obj>>)
    requires Sound(data, st)
    ensures r.Done? ==> Grows(data, st, r.st) && r.st.objects == st.objects + |r.value|
    ensures r.Done? ==> st.pos < r.st.pos
  {
    if IsPrimitive(code) then
      var v :- ReadFieldValue(data, code, st);
      Done(v.0.1, v.1)
    else
      var v :- ReadContent(data, st);
      Done(v.0.1, v.1)
  }

  function SkipClassData(data: seq<Byte>, p: Option<nat>, seen: set<nat>, st: State): (r: Outcome<seq<Obj>>)
    requires Sound(data, st) && Points(p, st)
    ensures r.Done? ==> Grows(data, st, r.st) && r.st.objects == st.objects + |r.value|
    decreases |data| - st.pos, Indices(|st.descs|) - seen
  {
    match p
    case None => Done([], st)
    case Some(c) =>
      if c in seen then Endless
      else
        var d := st.descs[c];
        var o :- SkipOwnData(data, d, st);
        var s :- SkipClassData(data, d.super, if d.Takes() then {} else seen + {c}, o.1);
        Done(o.0 + s.0, s.1)
  }

  function SkipOwnData(data: seq<Byte>, d: ClassDesc, st: State): (r: Outcome<seq<Obj>>)
    requires Sound(data, st)
    ensures r.Done? ==> Grows(data, st, r.st) && r.st.objects == st.objects + |r.value|
    ensures d.Takes() && r.Done? ==> st.pos < r.st.pos
    ensures !d.Takes() ==> r == Done([], st)
  {
    if d.HasWriteMethod() && AtBlock(data, st) then
      var a :- SkipAnnotation(data, st);
      Done([], a.1)
    else
      var f :- SkipFields(data, d.fields, st);
      var a :- SkipWritten(data, d, f.1);
      Done(f.0, a.1)
  }

  // The stream as a whole.

  /** Objects and class literals are the values that are maps. */
  function AsMap(v: JavaValue, objects: seq<Obj>): (m: Obj)
    requires v.JObject? ==> v.id < |objects|
  {
    match v
    case JObject(id) => objects[id]
    case JClass(name) => map[CLASS_KEY := JStr(name)]
    case _ => map[]
  }

  /** "class" */
  const CLASS_KEY: Name := [0x63, 0x6C, 0x61, 0x73, 0x73]

  function StartPos(data: seq<Byte>): (p: nat)
    ensures p <= |data|
  {
    if |data| >= 4 && data[..4] == [0xAC, 0xED, 0x00, 0x05] then 4 else 0
  }

  /**
   How decoding ends: with values and the maps that they refer to, with the error for none, with a
   panic, or not at all.
   */
  datatype Args = Args(values: Obj, objects: seq<Obj>) | NoArgs | Panics | Diverges

  /** Top-level contents until the data or the first error ends; the first value of a name stays. */
  function ReadAll(data: seq<Byte>, st: State, objects: seq<Obj>, result: Obj): Args
    requires Sound(data, st) && st.objects == |objects|
    decreases |data| - st.pos
  {
    if st.pos >= |data| then Collected(result, objects)
    else if data[st.pos] == TC_ENDBLOCKDATA then ReadAll(data, st.Skip(1), objects, result)
    else if data[st.pos] == TC_RESET then ReadAll(data, st.Skip(1).(handles := []), objects, result)
    else
      match ReadContent(data, st)
      case Failed => Collected(result, objects)
      case Panicked => Panics
      case Endless => Diverges
      case Done(v, next) =>
        ReadAll(data, next, objects + v.1, AsMap(v.0, objects + v.1) + result)
  }

  function Collected(result: Obj, objects: seq<Obj>): Args {
    if result == map[] then NoArgs else Args(result, objects)
  }

  function DeserializeArgs(data: seq<Byte>): Args {
    ReadAll(data, START.Skip(StartPos(data)), [], map[])
  }
}
