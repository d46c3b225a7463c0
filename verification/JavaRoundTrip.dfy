/** Reading gives back what a writer said (dubboport/java_deserializer.go). */
module JavaRoundTrip {
  import opened Wrappers
  import opened Bytes
  import opened Seqs
  import opened JavaStream
  import opened JavaEnds
  import opened JavaPlain
  import opened JavaTheorems
  import opened JavaWriter

  // Numbers.

  /** The top bit of a big-endian number. */
  lemma {:induction false} TopBit(b: seq<Byte>)
    requires b != []
    ensures b[0] >= 128 <==> 2 * Be(b) >= Pow256(|b|)
    decreases |b|
  {
    var n := |b|;
    if n == 1 {
      assert Be(b[..0]) == 0 && Pow256(1) == 256 * Pow256(0);
    } else {
      TopBit(b[..n - 1]);
      assert Pow256(n - 1) == 256 * Pow256(n - 2);
    }
  }

  lemma SignedReads(i: int, n: nat)
    requires n > 0 && 0 <= 2 * i + Pow256(n) && 2 * i < Pow256(n)
    ensures var x := if i < 0 then i + Pow256(n) else i;
            Signed(PutBe(x, n)) == i
  {
    hide Be, PutBe, Pow256;
    var x := if i < 0 then i + Pow256(n) else i;
    BePutBe(x, n);
    TopBit(PutBe(x, n));
  }

  lemma PrimReads(p: Prim, data: seq<Byte>, st: State)
    requires Sound(data, st) && Fits(p) && HasAt(data, st.pos, PrimBytes(p))
    ensures IsPrimitive(Letter(p)) && !IsReference(Letter(p))
    ensures ReadPrimitive(data, Letter(p), st) == Done(PrimSays(p), After(st, |PrimBytes(p)|))
    ensures 0 < |PrimBytes(p)| <= 8
  {
    hide Be, PutBe, Signed, Sound, Pow256;
    PowersOf256();
    match p
    case PByte(i) => SignedReads(i, 1);
    case PShort(i) => SignedReads(i, 2);
    case PInt(i) => SignedReads(i, 4);
    case PLong(i) => SignedReads(i, 8);
    case PChar(c) => BePutBe(c, 2);
    case PBool(b) => assert data[st.pos..st.pos + 1][0] == data[st.pos];
    case _ =>
  }

  // Strings and references.

  lemma UtfReads(s: Name, data: seq<Byte>, st: State)
    requires Sound(data, st) && |s| < 0x1_0000 && HasAt(data, st.pos, UtfBytes(s))
    ensures ReadUTF(data, st) == Done(s, After(st, |UtfBytes(s)|)) && |UtfBytes(s)| == 2 + |s|
  {
    hide Be, PutBe, Sound, Pow256;
    PowersOf256();
    HasParts(data, st.pos, PutBe(|s|, 2), s);
    BePutBe(|s|, 2);
  }

  /** A tag and what follows it. */
  lemma TagReads(data: seq<Byte>, st: State, tag: Byte, body: seq<Byte>)
    requires Sound(data, st) && HasAt(data, st.pos, [tag] + body)
    ensures st.pos < |data| && data[st.pos] == tag && HasAt(data, st.pos + 1, body)
    ensures Sound(data, st.Skip(1)) && st.Skip(1) == After(st, 1)
  {
    HasParts(data, st.pos, [tag], body);
    assert data[st.pos..st.pos + 1][0] == data[st.pos];
    SoundNext(data, st);
  }

  lemma RefReads(h: nat, data: seq<Byte>, st: State)
    requires Sound(data, st) && HasAt(data, st.pos, RefBytes(h)) && RefSays(h, st).Done?
    ensures st.pos < |data| && data[st.pos] == TC_REFERENCE && Sound(data, st.Skip(1))
    ensures ReadHandle(data, st.Skip(1)) == RefSays(h, st) && |RefBytes(h)| == 5
  {
    hide Be, PutBe, Sound, Pow256;
    PowersOf256();
    TagReads(data, st, 0x71, PutBe(h, 4));
    BePutBe(h, 4);
  }

  /** What reading a string gives: its value and a handle for it, at the end of its bytes. */
  lemma StringReads(s: Name, data: seq<Byte>, st: State)
    requires Sound(data, st) && HasAt(data, st.pos, TextBytes(New(s))) && TextSays(New(s), st).Done?
    ensures st.pos < |data| && data[st.pos] == TC_STRING && Sound(data, st.Skip(1))
    ensures ReadString(data, st.Skip(1)) == TextSays(New(s), st)
    ensures TextSays(New(s), st).value == s && TextSays(New(s), st).st.pos == st.pos + |TextBytes(New(s))|
    ensures |TextBytes(New(s))| == 3 + |s|
  {
    hide ReadUTF, UtfBytes, Sound;
    TagReads(data, st, 0x74, UtfBytes(s));
    UtfReads(s, data, st.Skip(1));
  }

  lemma LongParts(s: Name, data: seq<Byte>, pos: nat)
    requires HasAt(data, pos, TextBytes(NewLong(s))) && |data| <= MAX_INT
    ensures |TextBytes(NewLong(s))| == 9 + |s| && pos + 9 + |s| <= |data| && data[pos] == TC_LONGSTRING
    ensures Be(data[pos + 1..pos + 9]) == |s| && data[pos + 9..pos + 9 + |s|] == s
  {
    hide Be, PutBe, Pow256;
    PowersOf256();
    HasParts(data, pos, [0x7C], PutBe(|s|, 8) + s);
    HasParts(data, pos + 1, PutBe(|s|, 8), s);
    assert data[pos..pos + 1][0] == data[pos];
    BePutBe(|s|, 8);
  }

  lemma LongStringIs(s: Name, data: seq<Byte>, st: State)
    requires Sound(data, st) && st.pos + 8 + |s| <= |data| <= MAX_INT
    requires Be(data[st.pos..st.pos + 8]) == |s| && data[st.pos + 8..st.pos + 8 + |s|] == s
    ensures ReadLongString(data, st) == Done(s, Given(After(st, 8 + |s|), JStr(s)))
  {
    hide Be, Sound;
  }

  lemma LongStringReads(s: Name, data: seq<Byte>, st: State)
    requires Sound(data, st) && HasAt(data, st.pos, TextBytes(NewLong(s))) && |data| <= MAX_INT
    ensures st.pos < |data| && data[st.pos] == TC_LONGSTRING && Sound(data, st.Skip(1))
    ensures ReadLongString(data, st.Skip(1)) == TextSays(NewLong(s), st)
    ensures TextSays(NewLong(s), st).st.pos == st.pos + |TextBytes(NewLong(s))| && |TextBytes(NewLong(s))| == 9 + |s|
  {
    hide HasAt, TextBytes, ReadLongString, Be, Sound;
    LongParts(s, data, st.pos);
    SoundNext(data, st);
    LongStringIs(s, data, st.Skip(1));
  }

  lemma TextReads(t: Text, data: seq<Byte>, st: State)
    requires Sound(data, st) && HasAt(data, st.pos, TextBytes(t)) && |data| <= MAX_INT
    requires TextSays(t, st).Done?
    ensures ReadObjectString(data, st) == TextSays(t, st)
    ensures TextSays(t, st).st.pos == st.pos + |TextBytes(t)|
  {
    hide ReadString, ReadLongString, ReadHandle, Sound;
    match t
    case New(s) => StringReads(s, data, st);
    case NewLong(s) => LongStringReads(s, data, st);
    case Again(h) => RefReads(h, data, st);
  }

  // Block data.

  lemma BlockReads(block: Block, more: seq<Byte>, data: seq<Byte>, st: State)
    requires Sound(data, st) && block.Fits() && HasAt(data, st.pos, block.Size() + (block.b + more))
    ensures st.pos < |data| && data[st.pos] == if block.Short? then TC_BLOCKDATA else TC_BLOCKDATALONG
    ensures var n := |block.Size()| + |block.b|;
            SkipBlock(data, st) == Done((), After(st, n)) && HasAt(data, st.pos + n, more)
  {
    hide Be, PutBe, Pow256, Sound;
    PowersOf256();
    var size := |block.b|;
    var digits := if block.Short? then 1 else 4;
    HasParts(data, st.pos, block.Size(), block.b + more);
    HasParts(data, st.pos + 1 + digits, block.b, more);
    HasParts(data, st.pos, [if block.Short? then 0x77 else 0x7A], PutBe(size, digits));
    BePutBe(size, digits);
    assert data[st.pos..st.pos + 1][0] == data[st.pos];
    if block.Short? {
      OneDigit(size);
      assert data[st.pos + 1..st.pos + 2][0] == data[st.pos + 1];
    }
  }

  lemma OneDigit(n: nat)
    requires n < 0x100
    ensures PutBe(n, 1) == [n]
  {
  }

  lemma {:induction false} NotesRead(notes: Notes, data: seq<Byte>, st: State)
    requires Sound(data, st) && HasAt(data, st.pos, NotesBytes(notes))
    ensures SkipAnnotation(data, st) == Done((), After(st, |NotesBytes(notes)|))
    decreases |notes|
  {
    hide SkipBlock, Sound, Block.Size;
    if notes == [] {
      assert data[st.pos..st.pos + 1][0] == data[st.pos];
    } else {
      BlockReads(notes[0], NotesBytes(notes[1..]), data, st);
      NotesRead(notes[1..], data, After(st, |notes[0].Size()| + |notes[0].b|));
    }
  }

  // Class descriptors.

  lemma DeclReads(f: FieldDecl, data: seq<Byte>, st: State)
    requires Sound(data, st) && HasAt(data, st.pos, DeclBytes(f)) && |data| <= MAX_INT
    requires DeclSays(f, st).Done?
    ensures ReadFieldInfo(data, st) == DeclSays(f, st)
    ensures DeclSays(f, st).st.pos == st.pos + |DeclBytes(f)|
  {
    hide ReadUTF, ReadObjectString, UtfBytes, TextBytes, TextSays, Sound;
    var cls := if IsRefLetter(f.letter) then TextBytes(f.cls) else [];
    TagReads(data, st, f.letter, UtfBytes(f.name) + cls);
    HasParts(data, st.pos + 1, UtfBytes(f.name), cls);
    UtfReads(f.name, data, st.Skip(1));
    if IsRefLetter(f.letter) {
      TextReads(f.cls, data, After(st, 3 + |f.name|));
    }
  }

  lemma {:induction false} DeclsRead(fs: seq<FieldDecl>, data: seq<Byte>, st: State)
    requires Sound(data, st) && HasAt(data, st.pos, DeclsBytes(fs)) && |data| <= MAX_INT
    requires DeclsSay(fs, st).Done?
    ensures ReadFieldInfos(data, |fs|, st) == DeclsSay(fs, st)
    ensures DeclsSay(fs, st).st.pos == st.pos + |DeclsBytes(fs)|
    decreases |fs|
  {
    hide ReadFieldInfo, DeclSays, DeclBytes, Sound;
    if fs != [] {
      HasParts(data, st.pos, DeclBytes(fs[0]), DeclsBytes(fs[1..]));
      DeclReads(fs[0], data, st);
      DeclsRead(fs[1..], data, DeclSays(fs[0], st).st);
    }
  }

  lemma BodyParts(uid: seq<Byte>, flags: Byte, fields: seq<FieldDecl>, notes: Option<Notes>, data: seq<Byte>, pos: nat)
    requires HasAt(data, pos, BodyBytes(uid, flags, fields, notes)) && |uid| == 8 && |fields| < 0x1_0000
    ensures pos + 11 <= |data| && data[pos + 8] == flags && Be(data[pos + 9..pos + 11]) == |fields|
    ensures HasAt(data, pos + 11, DeclsBytes(fields))
    ensures HasAt(data, pos + 11 + |DeclsBytes(fields)|, OptionalNotes(notes))
    ensures |BodyBytes(uid, flags, fields, notes)| == 11 + |DeclsBytes(fields)| + |OptionalNotes(notes)|
  {
    hide Be, PutBe, Pow256, DeclsBytes, OptionalNotes;
    PowersOf256();
    var count, tail := PutBe(|fields|, 2), DeclsBytes(fields) + OptionalNotes(notes);
    HasParts(data, pos, uid, [flags] + (count + tail));
    HasParts(data, pos + 8, [flags], count + tail);
    HasParts(data, pos + 9, count, tail);
    HasParts(data, pos + 11, DeclsBytes(fields), OptionalNotes(notes));
    assert data[pos + 8..pos + 9][0] == data[pos + 8];
    BePutBe(|fields|, 2);
  }

  lemma BodyReads(name: Name, uid: seq<Byte>, flags: Byte, fields: seq<FieldDecl>, notes: Option<Notes>,
                  data: seq<Byte>, st: State)
    requires Sound(data, st) && HasAt(data, st.pos, BodyBytes(uid, flags, fields, notes)) && |data| <= MAX_INT
    requires BodySays(name, uid, flags, fields, notes, st).Done?
    ensures ReadDescBody(data, name, st) == BodySays(name, uid, flags, fields, notes, st)
    ensures BodySays(name, uid, flags, fields, notes, st).st.pos == st.pos + |BodyBytes(uid, flags, fields, notes)|
  {
    hide Be, BodyBytes, DeclsBytes, DeclsSay, ReadFieldInfos, SkipAnnotation, NotesBytes;
    BodyParts(uid, flags, fields, notes, data, st.pos);
    var open := Opened(data, name, st);
    DeclsRead(fields, data, open);
    var infos := DeclsSay(fields, open);
    var desc := ClassDesc(name, flags, infos.value, None);
    if notes.Some? {
      NotesRead(notes.value, data, infos.st.(descs := st.descs + [desc]));
    }
  }

  lemma FreshParts(name: Name, body: seq<Byte>, super: seq<Byte>, data: seq<Byte>, st: State)
    requires Sound(data, st) && HasAt(data, st.pos, [0x72] + (UtfBytes(name) + (body + super))) && |name| < 0x1_0000
    ensures st.pos < |data| && data[st.pos] == TC_CLASSDESC && Sound(data, st.Skip(1))
    ensures HasAt(data, st.pos + 1, UtfBytes(name)) && HasAt(data, st.pos + 3 + |name|, body)
    ensures HasAt(data, st.pos + 3 + |name| + |body|, super)
    ensures |[0x72] + (UtfBytes(name) + (body + super))| == 3 + |name| + |body| + |super|
  {
    hide PutBe, Sound;
    TagReads(data, st, 0x72, UtfBytes(name) + (body + super));
    HasParts(data, st.pos + 1, UtfBytes(name), body + super);
    HasParts(data, st.pos + 3 + |name|, body, super);
  }

  lemma {:induction false} DescReads(d: Desc, data: seq<Byte>, st: State)
    requires Sound(data, st) && HasAt(data, st.pos, DescBytes(d)) && |data| <= MAX_INT
    requires DescSays(d, st).Done?
    ensures ReadClassDesc(data, st) == DescSays(d, st)
    ensures DescSays(d, st).st.pos == st.pos + |DescBytes(d)|
    decreases d
  {
    hide ReadUTF, ReadDescBody, ReadHandle, BodySays, BodyBytes, UtfBytes, Sound, HasAt;
    match d
    case NoDesc =>
      EmptyRight<Byte>([0x70], []);
      TagReads(data, st, 0x70, []);
    case Known(h) => RefReads(h, data, st);
    case Fresh(name, uid, flags, fields, notes, super) =>
      FreshParts(name, BodyBytes(uid, flags, fields, notes), DescBytes(super), data, st);
      UtfReads(name, data, st.Skip(1));
      var named := After(st, 3 + |name|);
      BodyReads(name, uid, flags, fields, notes, data, named);
      DescReads(super, data, BodySays(name, uid, flags, fields, notes, named).st);
  }

  // Contents.

  lemma {:induction false} ContentReads(c: Content, data: seq<Byte>, st: State)
    requires Sound(data, st) && HasAt(data, st.pos, ContentBytes(c)) && |data| <= MAX_INT
    requires ContentSays(c, st).Done?
    ensures ReadContent(data, st) == ContentSays(c, st)
    ensures ContentSays(c, st).st.pos == st.pos + |ContentBytes(c)|
    decreases c, 0
  {
    hide ReadObject, ReadArray, ReadString, ReadLongString, ReadEnum, ReadClass, ReadHandle, SkipBlock, Sound;
    hide TextBytes, TextSays, DescBytes, DescSays, PartsBytes, PartsSay, ItemsBytes, ItemsSay, RefBytes, RefSays;
    hide Block.Size;
    match c
    case WNull =>
      assert data[st.pos..st.pos + 1][0] == data[st.pos];
    case WRef(h) => RefReads(h, data, st);
    case WString(s) => StringReads(s, data, st);
    case WLongString(s) => LongStringReads(s, data, st);
    case WObject(desc, parts) =>
      TagReads(data, st, 0x73, DescBytes(desc) + PartsBytes(parts));
      ObjectReads(desc, parts, data, st);
    case WArray(desc, items) =>
      TagReads(data, st, 0x75, DescBytes(desc) + (PutBe(|items|, 4) + ItemsBytes(items)));
      ArrayReads(desc, items, data, st);
    case WEnum(desc, name) =>
      TagReads(data, st, 0x7E, DescBytes(desc) + TextBytes(name));
      EnumReads(desc, name, data, st);
    case WClass(desc) =>
      TagReads(data, st, 0x76, DescBytes(desc));
      ClassReads(desc, data, st);
    case WBlock(block) =>
      EmptyRight<Byte>(block.b, []);
      BlockReads(block, [], data, st);
  }

  lemma EnumReads(desc: Desc, name: Text, data: seq<Byte>, st: State)
    requires Sound(data, st) && Sound(data, st.Skip(1)) && HasAt(data, st.pos + 1, DescBytes(desc) + TextBytes(name))
    requires ContentSays(WEnum(desc, name), st).Done? && |data| <= MAX_INT
    ensures var r, c := ReadEnum(data, st.Skip(1)), ContentSays(WEnum(desc, name), st);
            r.Done? && c == Done((JStr(r.value), []), r.st) && c.st.pos == st.pos + |ContentBytes(WEnum(desc, name))|
  {
    hide ReadClassDesc, ReadObjectString, TextBytes, TextSays, DescBytes, DescSays, Sound;
    HasParts(data, st.pos + 1, DescBytes(desc), TextBytes(name));
    DescReads(desc, data, st.Skip(1));
    TextReads(name, data, DescSays(desc, After(st, 1)).st);
  }

  lemma ClassReads(desc: Desc, data: seq<Byte>, st: State)
    requires Sound(data, st) && Sound(data, st.Skip(1)) && HasAt(data, st.pos + 1, DescBytes(desc))
    requires ContentSays(WClass(desc), st).Done? && |data| <= MAX_INT
    ensures var r, c := ReadClass(data, st.Skip(1)), ContentSays(WClass(desc), st);
            r.Done? && c == Done((JClass(r.value), []), r.st) && c.st.pos == st.pos + |ContentBytes(WClass(desc))|
  {
    hide ReadClassDesc, DescBytes, DescSays, Sound;
    DescReads(desc, data, st.Skip(1));
  }

  lemma {:induction false} ObjectReads(desc: Desc, parts: seq<Part>, data: seq<Byte>, st: State)
    requires Sound(data, st) && Sound(data, st.Skip(1)) && HasAt(data, st.pos + 1, DescBytes(desc) + PartsBytes(parts))
    requires ContentSays(WObject(desc, parts), st).Done? && |data| <= MAX_INT
    ensures var r, c := ReadObject(data, st.Skip(1)), ContentSays(WObject(desc, parts), st);
            r == c && c.st.pos == st.pos + |ContentBytes(WObject(desc, parts))|
    decreases parts, 2
  {
    hide ReadClassDesc, ReadClassData, DescBytes, DescSays, PartsBytes, PartsSay, Sound;
    HasParts(data, st.pos + 1, DescBytes(desc), PartsBytes(parts));
    DescReads(desc, data, st.Skip(1));
    PartsRead(parts, ReadClassDesc(data, st.Skip(1)).value, map[], data, Created(data, st.Skip(1)));
  }

  lemma {:induction false} PartsRead(parts: seq<Part>, p: Option<nat>, obj: Obj, data: seq<Byte>, st: State)
    requires Sound(data, st) && Points(p, st) && HasAt(data, st.pos, PartsBytes(parts)) && |data| <= MAX_INT
    requires PartsSay(parts, p, obj, st).Done?
    ensures ReadClassData(data, p, {}, obj, st) == PartsSay(parts, p, obj, st)
    ensures PartsSay(parts, p, obj, st).st.pos == st.pos + |PartsBytes(parts)|
    decreases parts, 1
  {
    hide ReadClassData, ReadOwnData, ItemsBytes, FieldsSay, OptionalNotes, LikeBlock;
    if p.None? {
      NoClassData(data, obj, st);
    } else {
      var d, part := st.descs[p.value], parts[0];
      var here := ItemsBytes(part.values) + OptionalNotes(part.notes);
      HasParts(data, st.pos, here, PartsBytes(parts[1..]));
      PartReads(part, d, obj, data, st);
      ClassDataUnfolds(data, p.value, obj, st);
      var o := FieldsSay(part.values, d.fields, obj, st);
      PartsRead(parts[1..], d.super, o.value.0, data, After(o.st, |OptionalNotes(part.notes)|));
    }
  }

  lemma NoClassData(data: seq<Byte>, obj: Obj, st: State)
    requires Sound(data, st)
    ensures ReadClassData(data, None, {}, obj, st) == Done((obj, []), st)
  {
  }

  /** The data of one class. */
  lemma {:induction false} PartReads(part: Part, d: ClassDesc, obj: Obj, data: seq<Byte>, st: State)
    requires Sound(data, st) && |data| <= MAX_INT
    requires HasAt(data, st.pos, ItemsBytes(part.values) + OptionalNotes(part.notes))
    requires FieldsSay(part.values, d.fields, obj, st).Done?
    requires part.notes.Some? == (d.flags % 2 == 1) && !(part.notes.Some? && LikeBlock(ItemsBytes(part.values)))
    ensures var o := FieldsSay(part.values, d.fields, obj, st);
            && ReadOwnData(data, d, obj, st) == Done(o.value, After(o.st, |OptionalNotes(part.notes)|))
            && o.st.pos == st.pos + |ItemsBytes(part.values)|
    decreases part.values, 3
  {
    hide ReadFields, SkipAnnotation, ItemsBytes, FieldsSay, NotesBytes, Sound;
    HasParts(data, st.pos, ItemsBytes(part.values), OptionalNotes(part.notes));
    FieldsRead(part.values, d.fields, obj, data, st);
    NoFieldsSaid(part.values, d.fields, obj, st);
    var o := FieldsSay(part.values, d.fields, obj, st);
    if part.notes.Some? {
      NotesRead(part.notes.value, data, o.st);
      if |ItemsBytes(part.values)| > 0 {
        assert data[st.pos..st.pos + |ItemsBytes(part.values)|][0] == data[st.pos];
      }
    }
  }

  /**
   The data of a class that writes its own data are read as written if and only if they do not start
   like a block, provided that one of its fields is not hidden by a derived class.
   */
  lemma PartReadsExactly(part: Part, d: ClassDesc, obj: Obj, data: seq<Byte>, st: State, k: nat)
    requires Sound(data, st) && |data| <= MAX_INT
    requires HasAt(data, st.pos, ItemsBytes(part.values) + OptionalNotes(part.notes))
    requires FieldsSay(part.values, d.fields, obj, st).Done? && d.flags % 2 == 1 && part.notes.Some?
    requires k < |d.fields| && d.fields[k].name !in obj
    ensures var o := FieldsSay(part.values, d.fields, obj, st);
            ReadOwnData(data, d, obj, st) == Done(o.value, After(o.st, |OptionalNotes(part.notes)|)) <==>
            !LikeBlock(ItemsBytes(part.values))
  {
    hide ReadFields, SkipAnnotation, ItemsBytes, FieldsSay, OptionalNotes, Sound;
    if LikeBlock(ItemsBytes(part.values)) {
      HasParts(data, st.pos, ItemsBytes(part.values), OptionalNotes(part.notes));
      assert data[st.pos..st.pos + |ItemsBytes(part.values)|][0] == data[st.pos];
      FieldsRead(part.values, d.fields, obj, data, st);
      FieldsKeep(data, d.fields, obj, st);
    } else {
      PartReads(part, d, obj, data, st);
    }
  }

  lemma NoFieldsSaid(vs: seq<Item>, fields: seq<FieldInfo>, obj: Obj, st: State)
    requires FieldsSay(vs, fields, obj, st).Done?
    ensures fields == [] ==> FieldsSay(vs, fields, obj, st) == Done((obj, []), st) && ItemsBytes(vs) == []
  {
  }

  lemma {:induction false} FieldsRead(vs: seq<Item>, fields: seq<FieldInfo>, obj: Obj, data: seq<Byte>, st: State)
    requires Sound(data, st) && HasAt(data, st.pos, ItemsBytes(vs)) && |data| <= MAX_INT
    requires FieldsSay(vs, fields, obj, st).Done?
    ensures ReadFields(data, fields, obj, st) == FieldsSay(vs, fields, obj, st)
    ensures FieldsSay(vs, fields, obj, st).st.pos == st.pos + |ItemsBytes(vs)|
    decreases vs, 2
  {
    hide ReadFieldValue, ItemSays, ItemBytes, Sound;
    if fields != [] {
      HasParts(data, st.pos, ItemBytes(vs[0]), ItemsBytes(vs[1..]));
      ItemReads(vs[0], Some(fields[0].typeCode), data, st);
      var v := ItemSays(vs[0], Some(fields[0].typeCode), st);
      assert SetField(obj, fields[0].name, v.value.0) == map[fields[0].name := v.value.0] + obj;
      FieldsRead(vs[1..], fields[1..], map[fields[0].name := v.value.0] + obj, data, v.st);
    }
  }

  lemma {:induction false} ItemReads(v: Item, letter: Option<Byte>, data: seq<Byte>, st: State)
    requires Sound(data, st) && HasAt(data, st.pos, ItemBytes(v)) && |data| <= MAX_INT
    requires ItemSays(v, letter, st).Done?
    ensures ReadFieldValue(data, if letter.Some? then letter.value else 'L' as int, st) == ItemSays(v, letter, st)
    ensures ItemSays(v, letter, st).st.pos == st.pos + |ItemBytes(v)|
    decreases v, 1
  {
    hide ReadPrimitive, ReadContent, ContentSays, ContentBytes, PrimBytes, PrimSays, Sound;
    match v
    case P(p) => PrimReads(p, data, st);
    case C(c) => ContentReads(c, data, st);
  }

  lemma {:induction false} ArrayReads(desc: Desc, items: seq<Item>, data: seq<Byte>, st: State)
    requires Sound(data, st) && Sound(data, st.Skip(1))
    requires HasAt(data, st.pos + 1, DescBytes(desc) + (PutBe(|items|, 4) + ItemsBytes(items)))
    requires ContentSays(WArray(desc, items), st).Done? && |data| <= MAX_INT
    ensures var r, c := ReadArray(data, st.Skip(1)), ContentSays(WArray(desc, items), st);
            r == c && c.st.pos == st.pos + |ContentBytes(WArray(desc, items))|
    decreases items, 3
  {
    hide ReadClassDesc, ReadElements, DescBytes, DescSays, ItemsBytes, ItemsSay, Sound, Be, PutBe, Pow256;
    hide ElementType, PackedLetter;
    PowersOf256();
    BePutBe(|items|, 4);
    HasParts(data, st.pos + 1, DescBytes(desc), PutBe(|items|, 4) + ItemsBytes(items));
    DescReads(desc, data, st.Skip(1));
    var d := ReadClassDesc(data, st.Skip(1));
    HasParts(data, d.st.pos, PutBe(|items|, 4), ItemsBytes(items));
    LetterOf(d.st.descs[d.value.value]);
    ItemsRead(items, ElementType(d.st.descs[d.value.value]), data, Placed(data, d.st));
  }

  lemma LetterOf(d: ClassDesc)
    ensures PackedLetter(d.className) == if IsPrimitive(ElementType(d)) then Some(ElementType(d)) else None
  {
  }

  lemma {:induction false} ItemsRead(vs: seq<Item>, elem: Byte, data: seq<Byte>, st: State)
    requires Sound(data, st) && HasAt(data, st.pos, ItemsBytes(vs)) && |data| <= MAX_INT
    requires ItemsSay(vs, if IsPrimitive(elem) then Some(elem) else None, st).Done?
    ensures var said := ItemsSay(vs, if IsPrimitive(elem) then Some(elem) else None, st);
            ReadElements(data, elem, |vs|, st) == said && said.st.pos == st.pos + |ItemsBytes(vs)|
    decreases vs, 2
  {
    hide ReadFieldValue, ItemSays, ItemBytes, Sound, IsPrimitive;
    if vs != [] {
      var letter := if IsPrimitive(elem) then Some(elem) else None;
      HasParts(data, st.pos, ItemBytes(vs[0]), ItemsBytes(vs[1..]));
      ItemReads(vs[0], letter, data, st);
      ItemsRead(vs[1..], elem, data, ItemSays(vs[0], letter, st).st);
    }
  }

  /** The number that the protocol gives to the first handle (baseWireHandle). */
  const BASE_HANDLE: nat := 0x7E_0000

  /** The decoder counts handles from zero: a reference as the protocol writes it fails below 8257536 handles. */
  lemma ProtocolReferenceFails(k: nat, data: seq<Byte>, st: State)
    requires Sound(data, st) && k < |st.handles| && BASE_HANDLE + k < 0x1_0000_0000
    requires HasAt(data, st.pos, RefBytes(BASE_HANDLE + k))
    ensures ReadContent(data, st).Failed? <==> |st.handles| <= BASE_HANDLE + k
    ensures |st.handles| > BASE_HANDLE + k ==> ReadContent(data, st).value.0 == st.handles[BASE_HANDLE + k]
  {
    hide Be, PutBe, Sound, Pow256;
    PowersOf256();
    TagReads(data, st, 0x71, PutBe(BASE_HANDLE + k, 4));
    BePutBe(BASE_HANDLE + k, 4);
  }

  // Streams.

  lemma {:induction false} EntriesRead(es: seq<Entry>, data: seq<Byte>, st: State, objects: seq<Obj>, values: Obj)
    requires Sound(data, st) && st.objects == |objects| && |data| <= MAX_INT
    requires HasAt(data, st.pos, EntriesBytes(es)) && st.pos + |EntriesBytes(es)| == |data|
    requires EntriesSay(es, st, objects, values).Some?
    ensures var said := EntriesSay(es, st, objects, values).value;
            ReadAll(data, st, objects, values) == if said.0 == map[] then NoArgs else Args(said.0, said.1)
    decreases |es|
  {
    hide ReadContent, ContentSays, ContentBytes, Sound;
    if es != [] {
      var one := if es[0].Reset? then [0x79] else ContentBytes(es[0].c);
      HasParts(data, st.pos, one, EntriesBytes(es[1..]));
      match es[0]
      case Reset =>
        assert data[st.pos..st.pos + 1][0] == data[st.pos];
        SoundReset(data, st);
        EntriesRead(es[1..], data, st.Skip(1).(handles := []), objects, values);
      case Written(c) =>
        ContentReads(c, data, st);
        ContentTag(c, data, st);
        var r := ContentSays(c, st);
        var all := objects + r.value.1;
        MapIs(r.value.0, all);
        EntriesRead(es[1..], data, r.st, all, MapSaid(r.value.0, all) + values);
    }
  }

  /** No content starts like what is skipped at the top level. */
  lemma ContentTag(c: Content, data: seq<Byte>, st: State)
    requires HasAt(data, st.pos, ContentBytes(c))
    ensures st.pos < |data| && 0x70 <= data[st.pos] <= 0x7E && data[st.pos] !in {TC_ENDBLOCKDATA, TC_RESET}
  {
    hide DescBytes, PartsBytes, ItemsBytes, PutBe;
    assert data[st.pos..st.pos + |ContentBytes(c)|][0] == data[st.pos];
  }

  lemma MapIs(v: JavaValue, objects: seq<Obj>)
    requires v.JObject? ==> v.id < |objects|
    ensures MapSaid(v, objects) == AsMap(v, objects)
  {
    assert Ascii("class") == CLASS_KEY;
  }

  /** The magic number and the version that a stream may start with. */
  const HEADER: seq<Byte> := [0xAC, 0xED, 0x00, 0x05]

  /**
   Decoding what a writer wrote, with the header or without, gives exactly the names and values it
   said at the top level, the first value of a name, and the maps that they refer to.
   */
  lemma WrittenReads(es: seq<Entry>, headed: bool)
    requires var start := if headed then 4 else 0;
             && EntriesSay(es, State(start, [], [], 0), [], map[]).Some?
             && start + |EntriesBytes(es)| <= MAX_INT
    ensures var said := EntriesSay(es, State(if headed then 4 else 0, [], [], 0), [], map[]).value;
            DeserializeArgs((if headed then HEADER else []) + EntriesBytes(es)) ==
              if said.0 == map[] then NoArgs else Args(said.0, said.1)
  {
    hide ReadAll, EntriesBytes, EntriesSay;
    var data := (if headed then HEADER else []) + EntriesBytes(es);
    var start := State(if headed then 4 else 0, [], [], 0);
    NoHeader(es);
    if headed {
      assert data[..4] == HEADER;
    } else {
      EmptyLeft<Byte>([], EntriesBytes(es));
    }
    assert data[start.pos..start.pos + |EntriesBytes(es)|] == EntriesBytes(es);
    EntriesRead(es, data, start, [], map[]);
  }

  lemma NoHeader(es: seq<Entry>)
    ensures EntriesBytes(es) != [] ==> EntriesBytes(es)[0] != 0xAC
  {
    if es != [] && es[0].Written? {
      var c := es[0].c;
      assert HasAt(ContentBytes(c), 0, ContentBytes(c));
      ContentTag(c, ContentBytes(c), State(0, [], [], 0));
    }
  }

  // One object of one class.

  /** A field with its value: a primitive one, or a string. */
  datatype Flat = Plain(name: Name, p: Prim) | Worded(name: Name, cls: Name, s: Name)

  ghost predicate FlatFits(f: Flat) {
    && |f.name| < 0x1_0000
    && match f
       case Plain(_, p) => Fits(p)
       case Worded(_, cls, s) => |cls| < 0x1_0000 && |s| < 0x1_0000
  }

  function FlatDecl(f: Flat): FieldDecl {
    match f
    case Plain(name, p) => FieldDecl(Letter(p), name, New([]))
    case Worded(name, cls, _) => FieldDecl('L' as int, name, New(cls))
  }

  function FlatItem(f: Flat): Item {
    match f
    case Plain(_, p) => P(p)
    case Worded(_, _, s) => C(WString(s))
  }

  /** What the decoder should show of it. */
  function FlatValue(f: Flat): JavaValue {
    match f
    case Plain(_, p) => PrimSays(p)
    case Worded(_, _, s) => JStr(s)
  }

  function FlatDecls(fs: seq<Flat>): (ds: seq<FieldDecl>)
    ensures |ds| == |fs|
  {
    if fs == [] then [] else [FlatDecl(fs[0])] + FlatDecls(fs[1..])
  }

  function FlatItems(fs: seq<Flat>): (vs: seq<Item>)
    ensures |vs| == |fs|
  {
    if fs == [] then [] else [FlatItem(fs[0])] + FlatItems(fs[1..])
  }

  function FlatInfos(fs: seq<Flat>): (infos: seq<FieldInfo>)
    ensures |infos| == |fs|
  {
    if fs == [] then []
    else [FieldInfo(FlatDecl(fs[0]).letter, fs[0].name, if fs[0].Worded? then fs[0].cls else [])] + FlatInfos(fs[1..])
  }

  ghost predicate AllFit(fs: seq<Flat>) {
    && (forall i :: 0 <= i < |fs| ==> FlatFits(fs[i]))
    && forall i, j :: 0 <= i < j < |fs| ==> fs[i].name != fs[j].name
  }

  /** The map has exactly these names, each with its value, besides what it had before. */
  ghost predicate Holds(m: Obj, before: Obj, fs: seq<Flat>) {
    && (forall k :: k in m <==> k in before || exists i :: 0 <= i < |fs| && fs[i].name == k)
    && (forall k <- before :: k in m && m[k] == before[k])
    && forall i :: 0 <= i < |fs| ==> fs[i].name in m && m[fs[i].name] == FlatValue(fs[i])
  }

  lemma {:induction false} DeclsFlat(fs: seq<Flat>, st: State)
    requires AllFit(fs)
    ensures var r := DeclsSay(FlatDecls(fs), st);
            r.Done? && r.value == FlatInfos(fs) && r.st.descs == st.descs && r.st.objects == st.objects
    decreases |fs|
  {
    if fs != [] {
      assert FlatFits(fs[0]);
      assert forall i :: 0 <= i < |fs[1..]| ==> fs[1..][i] == fs[i + 1];
      var f := DeclSays(FlatDecl(fs[0]), st);
      LettersDiffer(fs[0]);
      DeclsFlat(fs[1..], f.st);
      assert FlatDecls(fs)[1..] == FlatDecls(fs[1..]);
    }
  }

  lemma LettersDiffer(f: Flat)
    ensures IsRefLetter(FlatDecl(f).letter) <==> f.Worded?
  {
  }

  lemma {:induction false} FieldsFlat(fs: seq<Flat>, obj: Obj, st: State)
    requires AllFit(fs) && forall i :: 0 <= i < |fs| ==> fs[i].name !in obj
    ensures var r := FieldsSay(FlatItems(fs), FlatInfos(fs), obj, st);
            r.Done? && Holds(r.value.0, obj, fs) && r.value.1 == [] && r.st.objects == st.objects
    decreases |fs|
  {
    hide Fits, PrimBytes, Letter;
    if fs != [] {
      var rest := fs[1..];
      assert FlatFits(fs[0]);
      assert forall i :: 0 <= i < |rest| ==> rest[i] == fs[i + 1];
      assert FlatItems(fs)[1..] == FlatItems(rest) && FlatInfos(fs)[1..] == FlatInfos(rest);
      ItemFlat(fs[0], st);
      var v := ItemSays(FlatItem(fs[0]), Some(FlatDecl(fs[0]).letter), st);
      var obj' := map[fs[0].name := FlatValue(fs[0])] + obj;
      FieldsFlat(rest, obj', v.st);
      var m := FieldsSay(FlatItems(rest), FlatInfos(rest), obj', v.st).value.0;
      HoldsOn(m, obj, fs);
    }
  }

  lemma ItemFlat(f: Flat, st: State)
    requires FlatFits(f)
    ensures var v := ItemSays(FlatItem(f), Some(FlatDecl(f).letter), st);
            v.Done? && v.value == (FlatValue(f), []) && v.st.objects == st.objects
  {
    hide PrimBytes;
  }

  lemma HoldsOn(m: Obj, obj: Obj, fs: seq<Flat>)
    requires fs != [] && Holds(m, map[fs[0].name := FlatValue(fs[0])] + obj, fs[1..]) && fs[0].name !in obj
    ensures Holds(m, obj, fs)
  {
    hide FlatValue;
    var rest := fs[1..];
    assert forall i :: 0 <= i < |rest| ==> rest[i] == fs[i + 1];
    forall i | 0 <= i < |fs|
      ensures fs[i].name in m && m[fs[i].name] == FlatValue(fs[i])
    {
      assert i > 0 ==> fs[i] == rest[i - 1];
    }
    forall k
      ensures k in m <==> k in obj || exists i :: 0 <= i < |fs| && fs[i].name == k
    {
      if i :| 0 <= i < |fs| && fs[i].name == k {
        assert i > 0 ==> rest[i - 1].name == k;
      }
    }
  }

  /** An object of one new class with distinct field names. */
  function FlatObject(name: Name, uid: seq<Byte>, fs: seq<Flat>): Content {
    WObject(Fresh(name, uid, 2, FlatDecls(fs), None, NoDesc), [Part(FlatItems(fs), None)])
  }

  lemma FlatDescSays(name: Name, uid: seq<Byte>, fs: seq<Flat>, st: State)
    requires |name| < 0x1_0000 && |uid| == 8 && |fs| < 0x1_0000 && AllFit(fs) && st.descs == []
    ensures var d := DescSays(Fresh(name, uid, 2, FlatDecls(fs), None, NoDesc), st);
            && d.Done? && d.value == Some(0) && d.st.objects == st.objects
            && d.st.descs == [ClassDesc(name, 2, FlatInfos(fs), None)]
  {
    hide DeclsSay, FlatDecls, FlatInfos;
    var named := After(st, 3 + |name|);
    var unread := ClassDesc(name, 2, [], None);
    var open := State(named.pos + 11, named.handles + [JDesc(0)], named.descs + [unread], st.objects);
    DeclsFlat(fs, open);
    var desc := ClassDesc(name, 2, FlatInfos(fs), None);
    var body := BodySays(name, uid, 2, FlatDecls(fs), None, named);
    assert body.Done? && body.st.descs == named.descs + [desc] == [desc];
    assert DescSays(NoDesc, body.st) == Done(None, After(body.st, 1));
    assert [desc][0 := desc] == [desc];
  }

  lemma FlatPartSays(desc: ClassDesc, fs: seq<Flat>, st: State)
    requires AllFit(fs) && st.descs == [desc] && desc.fields == FlatInfos(fs) && desc.flags == 2 && desc.super.None?
    ensures var r := PartsSay([Part(FlatItems(fs), None)], Some(0), map[], st);
            r.Done? && Holds(r.value.0, map[], fs) && r.value.1 == []
  {
    hide FieldsSay, FlatItems, FlatInfos, Holds, ItemsBytes;
    FieldsFlat(fs, map[], st);
    var o := FieldsSay(FlatItems(fs), desc.fields, map[], st);
    assert PartsSay([], None, o.value.0, After(o.st, 0)) == Done((o.value.0, []), After(o.st, 0));
    assert [Part(FlatItems(fs), None)][1..] == [];
  }

  lemma FlatSays(name: Name, uid: seq<Byte>, fs: seq<Flat>)
    requires |name| < 0x1_0000 && |uid| == 8 && |fs| < 0x1_0000 && AllFit(fs)
    ensures var r := ContentSays(FlatObject(name, uid, fs), State(4, [], [], 0));
            r.Done? && r.value.0 == JObject(0) && |r.value.1| == 1 && Holds(r.value.1[0], map[], fs)
  {
    hide DescSays, PartsSay, FlatDecls, FlatItems, FlatInfos, Holds;
    var st := State(4, [], [], 0);
    FlatDescSays(name, uid, fs, After(st, 1));
    var d := DescSays(Fresh(name, uid, 2, FlatDecls(fs), None, NoDesc), After(st, 1));
    FlatPartSays(d.st.descs[0], fs, State(d.st.pos, d.st.handles + [JObject(0)], d.st.descs, 1));
  }

  /**
   An object with primitive and string fields of distinct names decodes to exactly those names, each
   with the value written.
   */
  lemma FlatObjectReads(name: Name, uid: seq<Byte>, fs: seq<Flat>)
    requires |name| < 0x1_0000 && |uid| == 8 && 0 < |fs| < 0x1_0000 && AllFit(fs)
    requires 4 + |ContentBytes(FlatObject(name, uid, fs))| <= MAX_INT
    ensures var r := DeserializeArgs(HEADER + ContentBytes(FlatObject(name, uid, fs)));
            && r.Args?
            && (forall k :: k in r.values <==> exists i :: 0 <= i < |fs| && fs[i].name == k)
            && forall i :: 0 <= i < |fs| ==> r.values[fs[i].name] == FlatValue(fs[i])
  {
    hide ContentBytes, ContentSays, FlatObject, DeserializeArgs, FlatValue;
    var c := FlatObject(name, uid, fs);
    FlatSays(name, uid, fs);
    var es := [Written(c)];
    EmptyRight(ContentBytes(c), EntriesBytes(es[1..]));
    var m := ContentSays(c, State(4, [], [], 0)).value.1[0];
    assert MapSaid(JObject(0), [] + [m]) + map[] == m;
    assert fs[0].name in m;
    WrittenReads(es, true);
  }
}
