/**
 What a writer of the Java object stream puts on the wire, and what it says by it: contents as trees,
 their bytes, and their values by the handles the writer has given out. Tags, type letters and
 widths are those of the protocol; only the state and the values are those of JavaStream.
 */
module JavaWriter {
  import opened Wrappers
  import opened Bytes
  import opened JavaStream

  // Primitive values.

  datatype Prim =
    | PByte(i: int)
    | PShort(i: int)
    | PInt(i: int)
    | PLong(i: int)
    | PChar(c: nat)
    | PBool(b: bool)
    | PFloat(bits: seq<Byte>)
    | PDouble(bits: seq<Byte>)

  predicate Fits(p: Prim) {
    match p
    case PByte(i) => -0x80 <= i < 0x80
    case PShort(i) => -0x8000 <= i < 0x8000
    case PInt(i) => -0x8000_0000 <= i < 0x8000_0000
    case PLong(i) => -0x8000_0000_0000_0000 <= i < 0x8000_0000_0000_0000
    case PChar(c) => c < 0x1_0000
    case PBool(_) => true
    case PFloat(bits) => |bits| == 4
    case PDouble(bits) => |bits| == 8
  }

  function Letter(p: Prim): Byte {
    match p
    case PByte(_) => 'B' as int
    case PShort(_) => 'S' as int
    case PInt(_) => 'I' as int
    case PLong(_) => 'J' as int
    case PChar(_) => 'C' as int
    case PBool(_) => 'Z' as int
    case PFloat(_) => 'F' as int
    case PDouble(_) => 'D' as int
  }

  /** Integers in two's complement, big-endian. */
  function PrimBytes(p: Prim): seq<Byte> {
    match p
    case PByte(i) => PutBe(i % 0x100, 1)
    case PShort(i) => PutBe(i % 0x1_0000, 2)
    case PInt(i) => PutBe(i % 0x1_0000_0000, 4)
    case PLong(i) => PutBe(i % 0x1_0000_0000_0000_0000, 8)
    case PChar(c) => PutBe(c, 2)
    case PBool(b) => [if b then 1 else 0]
    case PFloat(bits) => bits
    case PDouble(bits) => bits
  }

  function PrimSays(p: Prim): JavaValue {
    match p
    case PByte(i) => JInt(i)
    case PShort(i) => JInt(i)
    case PInt(i) => JInt(i)
    case PLong(i) => JInt(i)
    case PChar(c) => JChar(c)
    case PBool(b) => JBool(b)
    case PFloat(bits) => JReal(bits)
    case PDouble(bits) => JReal(bits)
  }

  // The writer's state.

  /** After n more bytes. */
  function After(st: State, n: nat): State {
    State(st.pos + n, st.handles, st.descs, st.objects)
  }

  /** With one more handle given out. */
  function Given(st: State, v: JavaValue): State {
    State(st.pos, st.handles + [v], st.descs, st.objects)
  }

  // Strings.

  /** A string written in the short or the long form, or one that was written before. */
  datatype Text = New(s: Name) | NewLong(s: Name) | Again(h: nat)

  function UtfBytes(s: Name): seq<Byte> {
    PutBe(|s|, 2) + s
  }

  function RefBytes(h: nat): seq<Byte> {
    [0x71] + PutBe(h, 4)
  }

  function TextBytes(t: Text): seq<Byte> {
    match t
    case New(s) => [0x74] + UtfBytes(s)
    case NewLong(s) => [0x7C] + (PutBe(|s|, 8) + s)
    case Again(h) => RefBytes(h)
  }

  function RefSays(h: nat, st: State): Outcome<JavaValue> {
    if h < |st.handles| && h < 0x1_0000_0000 then Done(st.handles[h], After(st, 5)) else Failed
  }

  function TextSays(t: Text, st: State): (r: Outcome<Name>)
    ensures r.Done? ==> r.st.descs == st.descs
  {
    match t
    case New(s) => if |s| < 0x1_0000 then Done(s, Given(After(st, 3 + |s|), JStr(s))) else Failed
    case NewLong(s) => Done(s, Given(After(st, 9 + |s|), JStr(s)))
    case Again(h) =>
      var v :- RefSays(h, st);
      if v.0.JStr? then Done(v.0.s, v.1) else Failed
  }

  // Block data with its end.

  datatype Block = Short(b: seq<Byte>) | Long(b: seq<Byte>) {

    predicate Fits() {
      |b| < if Short? then 0x100 else 0x1_0000_0000
    }

    function Size(): seq<Byte> {
      if Short? then [0x77] + PutBe(|b|, 1) else [0x7A] + PutBe(|b|, 4)
    }
  }

  type Notes = notes: seq<Block> | forall i :: 0 <= i < |notes| ==> notes[i].Fits()

  function NotesBytes(notes: Notes): seq<Byte> {
    if notes == [] then [0x78] else notes[0].Size() + (notes[0].b + NotesBytes(notes[1..]))
  }

  function OptionalNotes(notes: Option<Notes>): seq<Byte> {
    match notes
    case None => []
    case Some(ns) => NotesBytes(ns)
  }

  // Class descriptors.

  /** The name of a class is written for arrays and objects only. */
  datatype FieldDecl = FieldDecl(letter: Byte, name: Name, cls: Text)

  predicate IsRefLetter(letter: Byte) {
    letter == '[' as int || letter == 'L' as int
  }

  function DeclBytes(f: FieldDecl): seq<Byte> {
    [f.letter] + (UtfBytes(f.name) + (if IsRefLetter(f.letter) then TextBytes(f.cls) else []))
  }

  function DeclSays(f: FieldDecl, st: State): (r: Outcome<FieldInfo>)
    ensures r.Done? ==> r.st.descs == st.descs
  {
    if |f.name| >= 0x1_0000 then Failed
    else if IsRefLetter(f.letter) then
      var cls :- TextSays(f.cls, After(st, 3 + |f.name|));
      Done(FieldInfo(f.letter, f.name, cls.0), cls.1)
    else Done(FieldInfo(f.letter, f.name, []), After(st, 3 + |f.name|))
  }

  function DeclsBytes(fs: seq<FieldDecl>): seq<Byte> {
    if fs == [] then [] else DeclBytes(fs[0]) + DeclsBytes(fs[1..])
  }

  function DeclsSay(fs: seq<FieldDecl>, st: State): (r: Outcome<seq<FieldInfo>>)
    ensures r.Done? ==> r.st.descs == st.descs && |r.value| == |fs|
  {
    if fs == [] then Done([], st)
    else
      var f :- DeclSays(fs[0], st);
      var rest :- DeclsSay(fs[1..], f.1);
      Done([f.0] + rest.0, rest.1)
  }

  /** None, one written before, or a new one; super comes last. */
  datatype Desc =
    | NoDesc
    | Known(h: nat)
    | Fresh(name: Name, uid: seq<Byte>, flags: Byte, fields: seq<FieldDecl>, notes: Option<Notes>, super: Desc)

  function DescBytes(d: Desc): seq<Byte> {
    match d
    case NoDesc => [0x70]
    case Known(h) => RefBytes(h)
    case Fresh(name, uid, flags, fields, notes, super) =>
      [0x72] + (UtfBytes(name) + (BodyBytes(uid, flags, fields, notes) + DescBytes(super)))
  }

  function BodyBytes(uid: seq<Byte>, flags: Byte, fields: seq<FieldDecl>, notes: Option<Notes>): seq<Byte> {
    uid + ([flags] + (PutBe(|fields|, 2) + (DeclsBytes(fields) + OptionalNotes(notes))))
  }

  /** The descriptor has its handle before its fields are written, and its super at the very end. */
  function BodySays(name: Name, uid: seq<Byte>, flags: Byte, fields: seq<FieldDecl>, notes: Option<Notes>, st: State):
      (r: Outcome<()>)
    ensures r.Done? ==> |r.st.descs| == |st.descs| + 1
  {
    if |uid| != 8 || |fields| >= 0x1_0000 || (notes.Some? != (flags % 4 == 3)) then Failed
    else
      var d := |st.descs|;
      var unread := ClassDesc(name, flags, [], None);
      var open := State(st.pos + 11, st.handles + [JDesc(d)], st.descs + [unread], st.objects);
      var infos :- DeclsSay(fields, open);
      var done := After(infos.1, |OptionalNotes(notes)|);
      Done((), State(done.pos, done.handles, st.descs + [ClassDesc(name, flags, infos.0, None)], done.objects))
  }

  function DescSays(d: Desc, st: State): (r: Outcome<Option<nat>>)
    ensures r.Done? ==> |r.st.descs| >= |st.descs|
    decreases d
  {
    match d
    case NoDesc => Done(None, After(st, 1))
    case Known(h) =>
      var v :- RefSays(h, st);
      if v.0.JDesc? then Done(Some(v.0.desc), v.1) else Failed
    case Fresh(name, uid, flags, fields, notes, super) =>
      if |name| >= 0x1_0000 then Failed
      else
        var body :- BodySays(name, uid, flags, fields, notes, After(st, 3 + |name|));
        var up :- DescSays(super, body.1);
        var i := |st.descs|;
        Done(Some(i), State(up.1.pos, up.1.handles, up.1.descs[i := up.1.descs[i].(super := up.0)], up.1.objects))
  }

  // Contents.

  /** parts are the values of an object's classes, the most derived one first. */
  datatype Content =
    | WNull
    | WRef(h: nat)
    | WString(s: Name)
    | WLongString(s: Name)
    | WObject(desc: Desc, parts: seq<Part>)
    | WArray(desc: Desc, items: seq<Item>)
    | WEnum(desc: Desc, name: Text)
    | WClass(desc: Desc)
    | WBlock(block: Block)

  datatype Item = P(p: Prim) | C(c: Content)

  datatype Part = Part(values: seq<Item>, notes: Option<Notes>)

  function ContentBytes(c: Content): seq<Byte>
    decreases c, 0
  {
    match c
    case WNull => [0x70]
    case WRef(h) => RefBytes(h)
    case WString(s) => TextBytes(New(s))
    case WLongString(s) => TextBytes(NewLong(s))
    case WObject(desc, parts) => [0x73] + (DescBytes(desc) + PartsBytes(parts))
    case WArray(desc, items) => [0x75] + (DescBytes(desc) + (PutBe(|items|, 4) + ItemsBytes(items)))
    case WEnum(desc, name) => [0x7E] + (DescBytes(desc) + TextBytes(name))
    case WClass(desc) => [0x76] + DescBytes(desc)
    case WBlock(block) => block.Size() + block.b
  }

  function ItemBytes(v: Item): seq<Byte>
    decreases v, 0
  {
    match v
    case P(p) => PrimBytes(p)
    case C(c) => ContentBytes(c)
  }

  function ItemsBytes(vs: seq<Item>): seq<Byte>
    decreases vs, 1
  {
    if vs == [] then [] else ItemBytes(vs[0]) + ItemsBytes(vs[1..])
  }

  function PartsBytes(parts: seq<Part>): seq<Byte>
    decreases parts, 1
  {
    if parts == [] then []
    else (ItemsBytes(parts[0].values) + OptionalNotes(parts[0].notes)) + PartsBytes(parts[1..])
  }

  function ContentSays(c: Content, st: State): (r: Outcome<(JavaValue, seq<Obj>)>)
    decreases c, 0
  {
    match c
    case WNull => Done((JNull, []), After(st, 1))
    case WRef(h) =>
      var v :- RefSays(h, st);
      Done((v.0, []), v.1)
    case WString(s) =>
      var t :- TextSays(New(s), st);
      Done((JStr(t.0), []), t.1)
    case WLongString(s) =>
      var t :- TextSays(NewLong(s), st);
      Done((JStr(t.0), []), t.1)
    case WObject(desc, parts) =>
      var d :- DescSays(desc, After(st, 1));
      var id := st.objects;
      var o :- PartsSay(parts, d.0, map[], State(d.1.pos, d.1.handles + [JObject(id)], d.1.descs, id + 1));
      Done((JObject(id), [o.0.0] + o.0.1), o.1)
    case WArray(desc, items) =>
      var d :- DescSays(desc, After(st, 1));
      if d.0.None? || d.0.value >= |d.1.descs| || |items| >= 0x1_0000_0000 then Failed
      else
        var h := |d.1.handles|;
        var vs :- ItemsSay(items, PackedLetter(d.1.descs[d.0.value].className), Given(After(d.1, 4), JNull));
        if h >= |vs.1.handles| then Failed
        else
          var all := JArray(vs.0.0);
          Done((all, vs.0.1), State(vs.1.pos, vs.1.handles[h := all], vs.1.descs, vs.1.objects))
    case WEnum(desc, name) =>
      var d :- DescSays(desc, After(st, 1));
      var t :- TextSays(name, d.1);
      Done((JStr(t.0), []), Given(t.1, JStr(t.0)))
    case WClass(desc) =>
      var d :- DescSays(desc, After(st, 1));
      if d.0.Some? && d.0.value >= |d.1.descs| then Failed
      else
        var name := if d.0.Some? then d.1.descs[d.0.value].className else [];
        Done((JClass(name), []), Given(d.1, JStr(name)))
    case WBlock(block) =>
      if block.Fits() then Done((JNull, []), After(st, |block.Size()| + |block.b|)) else Failed
  }

  /** The elements of an array whose name is a bracket and a primitive letter are packed. */
  function PackedLetter(name: Name): Option<Byte> {
    if |name| >= 2 && name[0] == '[' as int &&
       name[1] in {'B' as int, 'C' as int, 'D' as int, 'F' as int, 'I' as int, 'J' as int, 'S' as int, 'Z' as int}
    then Some(name[1]) else None
  }

  /** A value under a type letter; none stands for the elements of an array that are contents. */
  function ItemSays(v: Item, letter: Option<Byte>, st: State): (r: Outcome<(JavaValue, seq<Obj>)>)
    decreases v, 0
  {
    match v
    case P(p) =>
      if letter == Some(Letter(p)) && Fits(p) then Done((PrimSays(p), []), After(st, |PrimBytes(p)|)) else Failed
    case C(c) =>
      if letter.None? || IsRefLetter(letter.value) then ContentSays(c, st) else Failed
  }

  function ItemsSay(vs: seq<Item>, letter: Option<Byte>, st: State): (r: Outcome<(seq<JavaValue>, seq<Obj>)>)
    ensures r.Done? ==> |r.value.0| == |vs|
    decreases vs, 1
  {
    if vs == [] then Done(([], []), st)
    else
      var v :- ItemSays(vs[0], letter, st);
      var rest :- ItemsSay(vs[1..], letter, v.1);
      Done(([v.0.0] + rest.0.0, v.0.1 + rest.0.1), rest.1)
  }

  /** The fields of one class; a name that a derived class has set stays. */
  function FieldsSay(vs: seq<Item>, fields: seq<FieldInfo>, obj: Obj, st: State): (r: Outcome<(Obj, seq<Obj>)>)
    decreases vs, 1
  {
    if |vs| != |fields| then Failed
    else if vs == [] then Done((obj, []), st)
    else
      var v :- ItemSays(vs[0], Some(fields[0].typeCode), st);
      var rest :- FieldsSay(vs[1..], fields[1..], map[fields[0].name := v.0.0] + obj, v.1);
      Done((rest.0.0, v.0.1 + rest.0.1), rest.1)
  }

  /**
   A class that writes its own data (the lowest flag) has notes behind its fields. The decoder cannot
   tell fields that start like a block from notes, so such fields are not among what can be said.
   */
  function PartsSay(parts: seq<Part>, p: Option<nat>, obj: Obj, st: State): (r: Outcome<(Obj, seq<Obj>)>)
    decreases parts, 1
  {
    if p.None? then if parts == [] then Done((obj, []), st) else Failed
    else if parts == [] || p.value >= |st.descs| then Failed
    else
      var d, part := st.descs[p.value], parts[0];
      if part.notes.Some? != (d.flags % 2 == 1) || (part.notes.Some? && LikeBlock(ItemsBytes(part.values))) then Failed
      else
        var o :- FieldsSay(part.values, d.fields, obj, st);
        var rest :- PartsSay(parts[1..], d.super, o.0.0, After(o.1, |OptionalNotes(part.notes)|));
        Done((rest.0.0, o.0.1 + rest.0.1), rest.1)
  }

  predicate LikeBlock(b: seq<Byte>) {
    b != [] && b[0] in {0x77, 0x7A}
  }

  // Streams.

  /** What stands at the top level: contents, and resets, which take all handles back. */
  datatype Entry = Written(c: Content) | Reset

  function EntriesBytes(es: seq<Entry>): seq<Byte> {
    if es == [] then []
    else (if es[0].Reset? then [0x79] else ContentBytes(es[0].c)) + EntriesBytes(es[1..])
  }

  /** The names and values of all top-level maps, the first value of a name, and all maps written. */
  function EntriesSay(es: seq<Entry>, st: State, objects: seq<Obj>, values: Obj): Option<(Obj, seq<Obj>)>
    decreases |es|
  {
    if es == [] then Some((values, objects))
    else
      match es[0]
      case Reset => EntriesSay(es[1..], State(st.pos + 1, [], st.descs, st.objects), objects, values)
      case Written(c) =>
        match ContentSays(c, st)
        case Done(v, next) =>
          var all := objects + v.1;
          EntriesSay(es[1..], next, all, MapSaid(v.0, all) + values)
        case _ => None
  }

  /** An object is its map, a class literal has its name under "class", nothing else is a map. */
  function MapSaid(v: JavaValue, objects: seq<Obj>): Obj {
    if v.JObject? && v.id < |objects| then objects[v.id]
    else if v.JClass? then map[Ascii("class") := JStr(v.name)]
    else map[]
  }
}
