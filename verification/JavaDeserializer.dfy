/** The stream reader as the object that it is: a cursor and a handle table updated in place. */
module JavaDeserializer {
  import opened Wrappers
  import opened Bytes
  import opened Seqs
  import opened JavaStream

  /** How a reader returns: a value or an error; or it panics, or recurses without end. */
  datatype Status = Ok | Error | Panic | Loop

  ghost function StatusOf<T>(r: Outcome<T>): Status {
    match r
    case Done(_, _) => Ok
    case Failed => Error
    case Panicked => Panic
    case Endless => Loop
  }

  class JavaReader {
    const data: seq<Byte>
    var pos: nat
    var handles: seq<JavaValue>
    /** The descriptors created so far; a pointer to one is its index. */
    var descs: seq<ClassDesc>
    /** The maps created so far; a reference to one is its index. */
    var objects: seq<Obj>

    constructor (data: seq<Byte>)
      ensures this.data == data && St() == START
    {
      this.data := data;
      pos, handles, descs, objects := 0, [], [], [];
    }

    ghost function St(): State
      reads this
    {
      State(pos, handles, descs, |objects|)
    }

    ghost predicate Valid()
      reads this
    {
      Sound(data, St())
    }

    /** The return e, v is what the specification gives, and so is the state after it. */
    ghost predicate Shows<T>(e: Status, v: T, r: Outcome<T>)
      reads this
    {
      e == StatusOf(r) && (r.Done? ==> v == r.value && St() == r.st)
    }

    /** The same for readers that create objects. */
    ghost predicate ShowsMade<T>(e: Status, v: T, before: seq<Obj>, r: Outcome<(T, seq<Obj>)>)
      reads this
    {
      e == StatusOf(r) && (r.Done? ==> v == r.value.0 && objects == before + r.value.1 && St() == r.st)
    }

    // Strings and handles.

    method ReadUTF() returns (e: Status, s: Name)
      requires Valid()
      modifies `pos
      ensures Shows(e, s, JavaStream.ReadUTF(data, old(St())))
    {
      s := [];
      if pos + 2 > |data| {
        return Error, s;
      }
      var length := Be(data[pos..pos + 2]);
      pos := pos + 2;
      if length == 0 {
        assert data[pos..pos + length] == s;
        return Ok, s;
      }
      if pos + length > |data| {
        return Error, s;
      }
      s := data[pos..pos + length];
      pos := pos + length;
      return Ok, s;
    }

    /** From the tag on. */
    method ReadString() returns (e: Status, s: Name)
      requires Valid() && pos < |data| && data[pos] == TC_STRING
      modifies `pos, `handles
      ensures Shows(e, s, JavaStream.ReadString(data, old(St()).Skip(1)))
    {
      s := [];
      pos := pos + 1;
      if pos + 2 > |data| {
        return Error, s;
      }
      var length := Be(data[pos..pos + 2]);
      pos := pos + 2;
      if pos + length > |data| {
        return Error, s;
      }
      s := data[pos..pos + length];
      pos := pos + length;
      handles := handles + [JStr(s)];
      return Ok, s;
    }

    method ReadLongString() returns (e: Status, s: Name)
      requires Valid() && pos < |data| && data[pos] == TC_LONGSTRING
      modifies `pos, `handles
      ensures Shows(e, s, JavaStream.ReadLongString(data, old(St()).Skip(1)))
    {
      s := [];
      pos := pos + 1;
      if pos + 8 > |data| {
        return Error, s;
      }
      var length := Be(data[pos..pos + 8]);
      pos := pos + 8;
      if length > MAX_INT {
        return Error, s;
      }
      if pos + length > MAX_INT {
        return Panic, s;
      }
      if pos + length > |data| {
        return Error, s;
      }
      s := data[pos..pos + length];
      pos := pos + length;
      handles := handles + [JStr(s)];
      return Ok, s;
    }

    method ReadReference() returns (e: Status, v: JavaValue)
      requires Valid() && pos < |data| && data[pos] == TC_REFERENCE
      modifies `pos
      ensures Shows(e, v, ReadHandle(data, old(St()).Skip(1)))
    {
      v := JNull;
      pos := pos + 1;
      if pos + 4 > |data| {
        return Error, v;
      }
      var h := Be(data[pos..pos + 4]);
      pos := pos + 4;
      if h >= |handles| {
        return Error, v;
      }
      return Ok, handles[h];
    }

    method ReadObjectString() returns (e: Status, s: Name)
      requires Valid()
      modifies `pos, `handles
      ensures Shows(e, s, JavaStream.ReadObjectString(data, old(St())))
    {
      hide Be, JavaStream.ReadString, JavaStream.ReadLongString, ReadHandle;
      s := [];
      if pos >= |data| {
        return Error, s;
      }
      var tc := data[pos];
      if tc == TC_STRING {
        e, s := ReadString();
      } else if tc == TC_LONGSTRING {
        e, s := ReadLongString();
      } else if tc == TC_REFERENCE {
        var v: JavaValue;
        e, v := ReadReference();
        if e == Ok {
          if v.JStr? {
            s := v.s;
          } else {
            e := Error;
          }
        }
      } else {
        e := Error;
      }
    }

    // Block data.

    method SkipBlockData() returns (e: Status)
      requires Valid()
      modifies `pos
      ensures Shows(e, (), SkipBlock(data, old(St())))
    {
      if pos >= |data| {
        return Error;
      }
      var tc := data[pos];
      if tc == TC_BLOCKDATA {
        pos := pos + 1;
        if pos >= |data| {
          return Error;
        }
        var size: nat := data[pos];
        pos := pos + 1;
        if pos + size > |data| {
          return Error;
        }
        pos := pos + size;
        return Ok;
      } else if tc == TC_BLOCKDATALONG {
        pos := pos + 1;
        if pos + 4 > |data| {
          return Error;
        }
        var size := Be(data[pos..pos + 4]);
        pos := pos + 4;
        if pos + size > |data| {
          return Error;
        }
        pos := pos + size;
        return Ok;
      } else if tc == TC_ENDBLOCKDATA {
        pos := pos + 1;
        return Ok;
      }
      return Error;
    }

    method SkipObjectAnnotation() returns (e: Status)
      requires Valid()
      modifies `pos
      ensures Shows(e, (), SkipAnnotation(data, old(St())))
    {
      hide SkipBlock;
      while pos < |data|
        invariant Valid()
        invariant SkipAnnotation(data, St()) == SkipAnnotation(data, old(St()))
        decreases |data| - pos
      {
        var tc := data[pos];
        if tc == TC_ENDBLOCKDATA {
          pos := pos + 1;
          return Ok;
        } else if tc == TC_BLOCKDATA || tc == TC_BLOCKDATALONG {
          e := SkipBlockData();
          if e != Ok {
            return;
          }
        } else {
          return Error;
        }
      }
      return Error;
    }

    // Class descriptors.

    method ReadClassDesc() returns (e: Status, p: Option<nat>)
      requires Valid()
      modifies `pos, `handles, `descs
      ensures Shows(e, p, JavaStream.ReadClassDesc(data, old(St())))
      decreases |data| - pos
    {
      hide Be, ReadHandle, ReadDescBody, JavaStream.ReadUTF, Sound;
      p := None;
      if pos >= |data| {
        return Error, p;
      }
      var tc := data[pos];
      if tc == TC_NULL {
        pos := pos + 1;
        return Ok, p;
      } else if tc == TC_REFERENCE {
        var v: JavaValue;
        e, v := ReadReference();
        if e == Ok {
          if v.JDesc? {
            p := Some(v.desc);
          } else {
            e := Error;
          }
        }
        return;
      } else if tc != TC_CLASSDESC {
        return Error, p;
      }
      Skipped();
      pos := pos + 1;
      var className: Name;
      e, className := ReadUTF();
      if e != Ok {
        return;
      }
      var info := |descs|;
      e := ReadClassDescBody(className);
      if e != Ok {
        return;
      }
      var super: Option<nat>;
      e, super := ReadClassDesc();
      if e != Ok {
        return;
      }
      descs := descs[info := descs[info].(super := super)];
      p := Some(info);
    }

    lemma Skipped()
      requires Valid() && pos < |data|
      ensures Sound(data, St().Skip(1))
    {
    }

    /** Creates the descriptor with its handle, and reads its flags and the number of its fields. */
    method BeginClassDesc(className: Name) returns (e: Status, fieldCount: nat)
      requires Valid()
      modifies `pos, `handles, `descs
      ensures e == if old(pos) + 11 <= |data| then Ok else Error
      ensures e == Ok ==>
                var from, desc := old(pos), ClassDesc(className, data[old(pos) + 8], [], None);
                && fieldCount == Be(data[from + 9..from + 11])
                && St() == State(from + 11, old(handles) + [JDesc(|old(descs)|)], old(descs) + [desc], |objects|)
    {
      hide Be, Sound;
      fieldCount := 0;
      if pos + 8 > |data| {
        return Error, fieldCount;
      }
      pos := pos + 8;
      var info := |descs|;
      descs := descs + [ClassDesc(className, 0, [], None)];
      handles := handles + [JDesc(info)];
      if pos >= |data| {
        return Error, fieldCount;
      }
      descs := descs[info := descs[info].(flags := data[pos])];
      pos := pos + 1;
      if pos + 2 > |data| {
        return Error, fieldCount;
      }
      fieldCount := Be(data[pos..pos + 2]);
      pos := pos + 2;
      e := Ok;
    }

    /** Creates the descriptor and fills in its flags and fields. */
    method ReadClassDescBody(className: Name) returns (e: Status)
      requires Valid()
      modifies `pos, `handles, `descs
      ensures Shows(e, (), ReadDescBody(data, className, old(St())))
    {
      hide Be, SkipAnnotation, JavaStream.ReadFieldInfos;
      var info := |descs|;
      var fieldCount: nat;
      e, fieldCount := BeginClassDesc(className);
      if e != Ok {
        return;
      }
      var fields: seq<FieldInfo>;
      e, fields := ReadFieldInfos(fieldCount);
      if e != Ok {
        return;
      }
      descs := descs[info := descs[info].(fields := fields)];
      assert descs == old(descs) + [ClassDesc(className, descs[info].flags, fields, None)];
      var flags := descs[info].flags;
      if flags / 2 % 2 == 1 && flags % 2 == 1 {
        e := SkipObjectAnnotation();
      }
    }

    method ReadFieldInfos(fieldCount: nat) returns (e: Status, fields: seq<FieldInfo>)
      requires Valid()
      modifies `pos, `handles
      ensures Shows(e, fields, JavaStream.ReadFieldInfos(data, fieldCount, old(St())))
    {
      hide ReadFieldInfo;
      fields := [];
      var i := 0;
      AfterStart(fields, JavaStream.ReadFieldInfos(data, fieldCount, St()));
      while i < fieldCount
        invariant 0 <= i <= fieldCount && Valid()
        invariant JavaStream.ReadFieldInfos(data, fieldCount, old(St()))
                  == After(fields, JavaStream.ReadFieldInfos(data, fieldCount - i, St()))
      {
        var f: FieldInfo;
        e, f := ReadField();
        if e != Ok {
          return;
        }
        AfterCons(fields, f, JavaStream.ReadFieldInfos(data, fieldCount - i - 1, St()));
        fields := fields + [f];
        i := i + 1;
      }
      assert fields + [] == fields;
      e := Ok;
    }

    method ReadField() returns (e: Status, f: FieldInfo)
      requires Valid()
      modifies `pos, `handles
      ensures Shows(e, f, ReadFieldInfo(data, old(St())))
    {
      hide Be, JavaStream.ReadUTF, JavaStream.ReadObjectString;
      f := FieldInfo(0, [], []);
      if pos >= |data| {
        return Error, f;
      }
      var typeCode := data[pos];
      pos := pos + 1;
      var name: Name, className: Name := [], [];
      e, name := ReadUTF();
      if e != Ok {
        return;
      }
      if typeCode == '[' as int || typeCode == 'L' as int {
        e, className := ReadObjectString();
        if e != Ok {
          return;
        }
      }
      f := FieldInfo(typeCode, name, className);
    }

    // Contents.

    method ReadContent() returns (e: Status, v: JavaValue)
      requires Valid()
      modifies this
      ensures ShowsMade(e, v, old(objects), JavaStream.ReadContent(data, old(St())))
      decreases |data| - pos, 1
    {
      hide JavaStream.ReadObject, JavaStream.ReadArray, ReadLeaf;
      v := JNull;
      if pos >= |data| {
        return Error, v;
      }
      var tc := data[pos];
      if tc == TC_OBJECT {
        e, v := ReadObject();
      } else if tc == TC_ARRAY {
        e, v := ReadArray();
      } else {
        e, v := ReadSimple(tc);
        MadeNothing(objects);
      }
    }

    /** The cases of the content switch that read no content in turn. */
    method ReadSimple(tc: Byte) returns (e: Status, v: JavaValue)
      requires Valid() && pos < |data| && data[pos] == tc
      modifies `pos, `handles, `descs
      ensures Shows(e, (v, []), ReadLeaf(data, tc, old(St())))
    {
      hide Be, ReadHandle, JavaStream.ReadString, JavaStream.ReadLongString, JavaStream.ReadEnum, JavaStream.ReadClass,
           SkipBlock;
      v := JNull;
      if tc == TC_NULL {
        pos := pos + 1;
        e := Ok;
      } else if tc == TC_REFERENCE {
        e, v := ReadReference();
      } else if tc == TC_STRING || tc == TC_LONGSTRING {
        var s: Name;
        if tc == TC_STRING {
          e, s := ReadString();
        } else {
          e, s := ReadLongString();
        }
        v := JStr(s);
      } else if tc == TC_ENUM {
        var name: Name;
        e, name := ReadEnum();
        v := JStr(name);
      } else if tc == TC_CLASS {
        var className: Name;
        e, className := ReadClass();
        v := JClass(className);
      } else if tc == TC_BLOCKDATA || tc == TC_BLOCKDATALONG {
        e := SkipBlockData();
      } else {
        e := Error;
      }
    }

    method ReadEnum() returns (e: Status, name: Name)
      requires Valid() && pos < |data| && data[pos] == TC_ENUM
      modifies `pos, `handles, `descs
      ensures Shows(e, name, JavaStream.ReadEnum(data, old(St()).Skip(1)))
    {
      hide JavaStream.ReadClassDesc, JavaStream.ReadObjectString;
      name := [];
      pos := pos + 1;
      var desc: Option<nat>;
      e, desc := ReadClassDesc();
      if e != Ok {
        return;
      }
      e, name := ReadObjectString();
      if e != Ok {
        return;
      }
      handles := handles + [JStr(name)];
    }

    /** The original wraps the name in a map of its own. */
    method ReadClass() returns (e: Status, className: Name)
      requires Valid() && pos < |data| && data[pos] == TC_CLASS
      modifies `pos, `handles, `descs
      ensures Shows(e, className, JavaStream.ReadClass(data, old(St()).Skip(1)))
    {
      hide JavaStream.ReadClassDesc;
      className := [];
      pos := pos + 1;
      var desc: Option<nat>;
      e, desc := ReadClassDesc();
      if e != Ok {
        return;
      }
      if desc.Some? {
        className := descs[desc.value].className;
      }
      handles := handles + [JStr(className)];
    }

    method ReadObject() returns (e: Status, v: JavaValue)
      requires Valid() && pos < |data| && data[pos] == TC_OBJECT
      modifies this
      ensures ShowsMade(e, v, old(objects), JavaStream.ReadObject(data, old(St()).Skip(1)))
      decreases |data| - pos, 0
    {
      hide JavaStream.ReadClassDesc, JavaStream.ReadClassData;
      v := JNull;
      pos := pos + 1;
      var desc: Option<nat>;
      e, desc := ReadClassDesc();
      if e != Ok {
        return;
      }
      var id := |objects|;
      objects := objects + [map[]];
      handles := handles + [JObject(id)];
      ghost var made: seq<Obj>;
      e, made := ReadClassData(desc, {}, id);
      if e != Ok {
        return;
      }
      v := JObject(id);
      OwnFirst(old(objects), objects[id], made, objects);
    }

    /**
     Fills the object id; made are the objects that its values created. The original does not look
     at seen, and so does not return where this returns Loop.
     */
    method ReadClassData(p: Option<nat>, seen: set<nat>, id: nat) returns (e: Status, ghost made: seq<Obj>)
      requires Valid() && id < |objects| && Points(p, St())
      modifies this
      ensures Fills(e, made, id, old(objects),
                    JavaStream.ReadClassData(data, p, seen, old(objects)[id], old(St())))
      decreases |data| - pos, 5, Indices(|descs|) - seen
    {
      hide JavaStream.ReadOwnData;
      made := [];
      if p.None? {
        FilledNothing(objects, id);
        return Ok, made;
      }
      if p.value in seen {
        return Loop, made;
      }
      var desc := descs[p.value];
      ghost var made1: seq<Obj>;
      e, made1 := ReadOwnData(desc, id);
      if e != Ok {
        return;
      }
      ghost var middle, o1 := objects, objects[id];
      ghost var made2: seq<Obj>;
      e, made2 := ReadClassData(desc.super, if desc.Takes() then {} else seen + {p.value}, id);
      made := made1 + made2;
      if e == Ok {
        FilledTwice(old(objects), middle, objects, id, o1, made1, objects[id], made2);
      }
    }

    /** The part of one class: its fields and annotation, or only the annotation if that comes first. */
    method ReadOwnData(desc: ClassDesc, id: nat) returns (e: Status, ghost made: seq<Obj>)
      requires Valid() && id < |objects|
      modifies this
      ensures Fills(e, made, id, old(objects), JavaStream.ReadOwnData(data, desc, old(objects)[id], old(St())))
      decreases |data| - pos, 4, |desc.fields| + 1
    {
      hide JavaStream.ReadFields, SkipAnnotation;
      made := [];
      var hasWriteMethod := desc.flags % 2 == 1;
      if hasWriteMethod && pos < |data| {
        var tc := data[pos];
        if tc == TC_BLOCKDATA || tc == TC_BLOCKDATALONG {
          FilledNothing(objects, id);
          e := SkipObjectAnnotation();
          return;
        }
      }
      e, made := ReadFields(desc.fields, id);
      if e != Ok {
        return;
      }
      if hasWriteMethod {
        e := SkipObjectAnnotation();
      }
    }

    ghost predicate Fills(e: Status, made: seq<Obj>, id: nat, before: seq<Obj>, r: Outcome<(Obj, seq<Obj>)>)
      reads this
    {
      && e == StatusOf(r)
      && (r.Done? ==>
            && id < |before| && Filled(before, objects, id, r.value.0, r.value.1)
            && made == r.value.1 && St() == r.st)
    }

    method ReadFields(fields: seq<FieldInfo>, id: nat) returns (e: Status, ghost made: seq<Obj>)
      requires Valid() && id < |objects|
      modifies this
      ensures Fills(e, made, id, old(objects), JavaStream.ReadFields(data, fields, old(objects)[id], old(St())))
      decreases |data| - pos, 4, |fields|
    {
      hide JavaStream.ReadFieldValue, JavaStream.ReadFields, Filled;
      made := [];
      e := Ok;
      FilledNothing(objects, id);
      ghost var rest := fields;
      AfterMadeStart(made, JavaStream.ReadFields(data, fields, objects[id], St()));
      for i := 0 to |fields|
        invariant Valid() && id < |objects| && rest == fields[i..] && e == Ok
        invariant old(pos) <= pos
        invariant Filled(old(objects), objects, id, objects[id], made)
        invariant JavaStream.ReadFields(data, fields, old(objects)[id], old(St()))
                  == AfterMade(made, JavaStream.ReadFields(data, rest, objects[id], St()))
      {
        ghost var before, o0 := objects, objects[id];
        var f := fields[i];
        FieldsUnfold(data, rest, o0, St());
        var v: JavaValue;
        e, v := ReadFieldValue(f.typeCode);
        if e != Ok {
          return;
        }
        ghost var new1 := objects[|before|..];
        if f.name !in objects[id] {
          objects := objects[id := objects[id][f.name := v]];
        }
        FilledTwice(old(objects), before, objects, id, o0, made, objects[id], new1);
        AfterTwice(made, new1, JavaStream.ReadFields(data, rest[1..], objects[id], St()));
        made := made + new1;
        rest := rest[1..];
      }
      FieldsUnfold(data, rest, objects[id], St());
      AfterNothing(made, objects[id], St());
    }

    method ReadFieldValue(typeCode: Byte) returns (e: Status, v: JavaValue)
      requires Valid()
      modifies this
      ensures ShowsMade(e, v, old(objects), JavaStream.ReadFieldValue(data, typeCode, old(St())))
      decreases |data| - pos, 2
    {
      hide JavaStream.ReadContent, JavaStream.ReadPrimitive;
      v := JNull;
      if typeCode == '[' as int || typeCode == 'L' as int {
        e, v := ReadContent();
      } else {
        e, v := ReadRawPrimitive(typeCode);
        MadeNothing(objects);
      }
    }

    method ReadRawPrimitive(typeCode: Byte) returns (e: Status, v: JavaValue)
      requires Valid()
      modifies `pos
      ensures !IsPrimitive(typeCode) ==> e == Error
      ensures IsPrimitive(typeCode) ==> Shows(e, v, ReadPrimitive(data, typeCode, old(St())))
    {
      hide Be, Signed;
      v := JNull;
      if !IsPrimitive(typeCode) {
        return Error, v;
      }
      var n := Width(typeCode);
      if pos + n > |data| {
        return Error, v;
      }
      var raw := data[pos..pos + n];
      pos := pos + n;
      if typeCode == 'C' as int {
        v := JChar(Be(raw));
      } else if typeCode == 'Z' as int {
        v := JBool(raw[0] != 0);
      } else if typeCode == 'F' as int || typeCode == 'D' as int {
        v := JReal(raw);
      } else {
        v := JInt(Signed(raw));
      }
      return Ok, v;
    }

    method ReadArray() returns (e: Status, v: JavaValue)
      requires Valid() && pos < |data| && data[pos] == TC_ARRAY
      modifies this
      ensures ShowsMade(e, v, old(objects), JavaStream.ReadArray(data, old(St()).Skip(1)))
      decreases |data| - pos, 0
    {
      hide JavaStream.ReadClassDesc, JavaStream.ReadElements, Be;
      v := JNull;
      pos := pos + 1;
      var desc: Option<nat>;
      e, desc := ReadClassDesc();
      if e != Ok {
        return;
      }
      if desc.None? {
        return Error, v;
      }
      if pos + 4 > |data| {
        return Error, v;
      }
      var size := Be(data[pos..pos + 4]);
      pos := pos + 4;
      var handle := |handles|;
      handles := handles + [JNull];
      var elemType: Byte := 'L' as int;
      if |descs[desc.value].className| >= 2 && descs[desc.value].className[0] == '[' as int {
        elemType := descs[desc.value].className[1];
      }
      var items: seq<JavaValue>;
      e, items := ReadElements(elemType, size);
      if e != Ok {
        return;
      }
      handles := handles[handle := JArray(items)];
      v := JArray(items);
    }

    method ReadElements(elemType: Byte, size: nat) returns (e: Status, items: seq<JavaValue>)
      requires Valid()
      modifies this
      ensures ShowsMade(e, items, old(objects), JavaStream.ReadElements(data, elemType, size, old(St())))
      decreases |data| - pos, 4, size
    {
      hide JavaStream.ReadFieldValue, JavaStream.ReadElements;
      items := [];
      e := Ok;
      var i := 0;
      AfterItemsStart(items, objects[|objects|..], JavaStream.ReadElements(data, elemType, size, St()));
      while i < size
        invariant 0 <= i <= size && Valid() && e == Ok && old(pos) <= pos
        invariant old(objects) <= objects
        invariant JavaStream.ReadElements(data, elemType, size, old(St()))
                  == AfterItems(items, objects[|old(objects)|..],
                                JavaStream.ReadElements(data, elemType, size - i, St()))
      {
        ghost var before := objects;
        ElementsUnfold(data, elemType, size - i, St());
        var v: JavaValue;
        e, v := ReadFieldValue(if IsPrimitive(elemType) then elemType else 'L' as int);
        if e != Ok {
          return;
        }
        AfterItemsCons(items, v, old(objects), before, objects,
                       JavaStream.ReadElements(data, elemType, size - i - 1, St()));
        items := items + [v];
        i := i + 1;
      }
      ElementsUnfold(data, elemType, 0, St());
      AfterAllItems(items, old(objects), objects, St());
    }

    // The path that keeps nothing.

    method SkipClassData(p: Option<nat>, seen: set<nat>) returns (e: Status)
      requires Valid() && Points(p, St())
      modifies this
      ensures Skips(e, old(objects), JavaStream.SkipClassData(data, p, seen, old(St())))
      decreases |data| - pos, Indices(|descs|) - seen
    {
      hide JavaStream.SkipOwnData;
      if p.None? {
        MadeNothing(objects);
        return Ok;
      }
      if p.value in seen {
        return Loop;
      }
      var desc := descs[p.value];
      e := SkipOwnData(desc);
      if e != Ok {
        return;
      }
      ghost var middle := objects;
      e := SkipClassData(desc.super, if desc.Takes() then {} else seen + {p.value});
      if e == Ok {
        Assoc(old(objects), middle[|old(objects)|..], objects[|middle|..]);
      }
    }

    method SkipOwnData(desc: ClassDesc) returns (e: Status)
      requires Valid()
      modifies this
      ensures Skips(e, old(objects), JavaStream.SkipOwnData(data, desc, old(St())))
    {
      hide JavaStream.SkipFields, SkipAnnotation;
      var hasWriteMethod := desc.flags % 2 == 1;
      if hasWriteMethod && pos < |data| {
        var tc := data[pos];
        if tc == TC_BLOCKDATA || tc == TC_BLOCKDATALONG {
          MadeNothing(objects);
          e := SkipObjectAnnotation();
          return;
        }
      }
      e := SkipFields(desc.fields);
      if e != Ok {
        return;
      }
      if hasWriteMethod {
        e := SkipObjectAnnotation();
      }
    }

    ghost predicate Skips(e: Status, before: seq<Obj>, r: Outcome<seq<Obj>>)
      reads this
    {
      e == StatusOf(r) && (r.Done? ==> objects == before + r.value && St() == r.st)
    }

    method SkipFields(fields: seq<FieldInfo>) returns (e: Status)
      requires Valid()
      modifies this
      ensures Skips(e, old(objects), JavaStream.SkipFields(data, fields, old(St())))
    {
      hide JavaStream.ReadFieldValue, JavaStream.ReadContent;
      e := Ok;
      ghost var rest := fields;
      AfterStart(objects[|objects|..], JavaStream.SkipFields(data, fields, St()));
      for i := 0 to |fields|
        invariant Valid() && rest == fields[i..] && e == Ok
        invariant old(objects) <= objects
        invariant JavaStream.SkipFields(data, fields, old(St()))
                  == After(objects[|old(objects)|..], JavaStream.SkipFields(data, rest, St()))
      {
        ghost var before := objects;
        var f := fields[i];
        var v: JavaValue;
        if IsPrimitive(f.typeCode) {
          e, v := ReadFieldValue(f.typeCode);
        } else {
          e, v := ReadContent();
        }
        if e != Ok {
          return;
        }
        AfterMore(old(objects), before, objects, JavaStream.SkipFields(data, rest[1..], St()));
        rest := rest[1..];
      }
      AfterAll(old(objects), objects, St());
    }
  }

  lemma FieldsUnfold(data: seq<Byte>, fields: seq<FieldInfo>, obj: Obj, st: State)
    requires Sound(data, st)
    ensures fields == [] ==> ReadFields(data, fields, obj, st) == Done((obj, []), st)
    ensures fields != [] ==>
              var v, r := ReadFieldValue(data, fields[0].typeCode, st), ReadFields(data, fields, obj, st);
              && (v.Done? ==>
                    r == AfterMade(v.value.1,
                                   ReadFields(data, fields[1..], SetField(obj, fields[0].name, v.value.0), v.st)))
              && (!v.Done? ==> r == v.PropagateFailure())
  {
    hide ReadFieldValue;
  }

  lemma ElementsUnfold(data: seq<Byte>, elem: Byte, n: nat, st: State)
    requires Sound(data, st)
    ensures n == 0 ==> ReadElements(data, elem, n, st) == Done(([], []), st)
    ensures n > 0 ==>
              var v := ReadFieldValue(data, if IsPrimitive(elem) then elem else 'L' as int, st);
              var r := ReadElements(data, elem, n, st);
              && (v.Done? ==> r == AfterItems([v.value.0], v.value.1, ReadElements(data, elem, n - 1, v.st)))
              && (!v.Done? ==> r == v.PropagateFailure())
  {
    hide ReadFieldValue;
  }

  // The outcome of the rest of a loop, completed by what the loop has gathered so far.

  ghost function After<T>(head: seq<T>, r: Outcome<seq<T>>): Outcome<seq<T>> {
    match r
    case Done(v, st) => Done(head + v, st)
    case Failed => Failed
    case Panicked => Panicked
    case Endless => Endless
  }

  lemma AfterStart<T>(head: seq<T>, r: Outcome<seq<T>>)
    requires |head| == 0
    ensures After(head, r) == r
  {
    if r.Done? {
      EmptyLeft(head, r.value);
    }
  }

  lemma AfterCons<T>(head: seq<T>, x: T, r: Outcome<seq<T>>)
    ensures r.Done? ==> After(head, Done([x] + r.value, r.st)) == After(head + [x], r)
    ensures !r.Done? ==> After(head, r) == After(head + [x], r)
  {
    if r.Done? {
      Assoc(head, [x], r.value);
    }
  }

  ghost function AfterMade(made: seq<Obj>, r: Outcome<(Obj, seq<Obj>)>): Outcome<(Obj, seq<Obj>)> {
    match r
    case Done(v, st) => Done((v.0, made + v.1), st)
    case Failed => Failed
    case Panicked => Panicked
    case Endless => Endless
  }

  lemma AfterMadeStart(made: seq<Obj>, r: Outcome<(Obj, seq<Obj>)>)
    requires |made| == 0
    ensures AfterMade(made, r) == r
  {
    if r.Done? {
      EmptyLeft(made, r.value.1);
    }
  }

  lemma AfterTwice(made: seq<Obj>, more: seq<Obj>, r: Outcome<(Obj, seq<Obj>)>)
    ensures AfterMade(made, AfterMade(more, r)) == AfterMade(made + more, r)
  {
    if r.Done? {
      Assoc(made, more, r.value.1);
    }
  }

  lemma AfterNothing(made: seq<Obj>, o: Obj, st: State)
    ensures AfterMade(made, Done((o, []), st)) == Done((o, made), st)
  {
    EmptyRight<Obj>(made, []);
  }

  ghost function AfterItems(items: seq<JavaValue>, made: seq<Obj>, r: Outcome<(seq<JavaValue>, seq<Obj>)>):
    Outcome<(seq<JavaValue>, seq<Obj>)>
  {
    match r
    case Done(v, st) => Done((items + v.0, made + v.1), st)
    case Failed => Failed
    case Panicked => Panicked
    case Endless => Endless
  }

  lemma AfterItemsStart(items: seq<JavaValue>, made: seq<Obj>, r: Outcome<(seq<JavaValue>, seq<Obj>)>)
    requires |items| == 0 && |made| == 0
    ensures AfterItems(items, made, r) == r
  {
    if r.Done? {
      EmptyLeft(items, r.value.0);
      EmptyLeft(made, r.value.1);
    }
  }

  lemma AfterItemsCons(items: seq<JavaValue>, v: JavaValue, start: seq<Obj>, before: seq<Obj>, now: seq<Obj>,
                       r: Outcome<(seq<JavaValue>, seq<Obj>)>)
    requires start <= before && before <= now
    ensures start <= now
    ensures AfterItems(items, before[|start|..], AfterItems([v], now[|before|..], r))
            == AfterItems(items + [v], now[|start|..], r)
  {
    assert now[|start|..] == before[|start|..] + now[|before|..];
    if r.Done? {
      Assoc(items, [v], r.value.0);
      Assoc(before[|start|..], now[|before|..], r.value.1);
    }
  }

  lemma AfterAllItems(items: seq<JavaValue>, start: seq<Obj>, now: seq<Obj>, st: State)
    requires start <= now
    ensures AfterItems(items, now[|start|..], Done(([], []), st)) == Done((items, now[|start|..]), st)
    ensures now == start + now[|start|..]
  {
    EmptyRight<JavaValue>(items, []);
    EmptyRight<Obj>(now[|start|..], []);
  }

  lemma AfterMore(start: seq<Obj>, before: seq<Obj>, now: seq<Obj>, r: Outcome<seq<Obj>>)
    requires start <= before && before <= now
    ensures start <= now
    ensures After(before[|start|..], After(now[|before|..], r)) == After(now[|start|..], r)
  {
    assert now[|start|..] == before[|start|..] + now[|before|..];
    if r.Done? {
      Assoc(before[|start|..], now[|before|..], r.value);
    }
  }

  lemma AfterAll(start: seq<Obj>, now: seq<Obj>, st: State)
    requires start <= now
    ensures After(now[|start|..], Done([], st)) == Done(now[|start|..], st)
    ensures now == start + now[|start|..]
  {
    EmptyRight<Obj>(now[|start|..], []);
  }

  // How the objects grow.

  /** Of the objects of before only id has changed, to o, and made came behind. */
  ghost predicate Filled(before: seq<Obj>, now: seq<Obj>, id: nat, o: Obj, made: seq<Obj>)
    requires id < |before|
  {
    now == before[id := o] + made
  }

  lemma MadeNothing(objects: seq<Obj>)
    ensures objects == objects + []
  {
  }

  lemma FilledNothing(objects: seq<Obj>, id: nat)
    requires id < |objects|
    ensures Filled(objects, objects, id, objects[id], [])
  {
  }

  lemma FilledTwice(a: seq<Obj>, b: seq<Obj>, c: seq<Obj>, id: nat, o1: Obj, made1: seq<Obj>, o2: Obj, made2: seq<Obj>)
    requires id < |a| && Filled(a, b, id, o1, made1) && Filled(b, c, id, o2, made2)
    ensures Filled(a, c, id, o2, made1 + made2)
  {
  }

  lemma OwnFirst(before: seq<Obj>, o: Obj, made: seq<Obj>, now: seq<Obj>)
    requires now == (before + [map[]])[|before| := o] + made
    ensures now == before + ([o] + made)
  {
  }

  // The whole stream.

  method MergeFirst(result: Obj, m: Obj) returns (merged: Obj)
    ensures merged == m + result
  {
    merged := result;
    var left := m.Keys;
    while left != {}
      invariant left <= m.Keys
      invariant merged == (m - left) + result
    {
      var k :| k in left;
      if k !in merged {
        merged := merged[k := m[k]];
      }
      left := left - {k};
    }
    assert m - left == m;
  }

  /** Only maps have something to merge. */
  method MergeValue(result: Obj, v: JavaValue, objects: seq<Obj>) returns (merged: Obj)
    requires v.JObject? ==> v.id < |objects|
    ensures merged == AsMap(v, objects) + result
  {
    if v.JObject? {
      merged := MergeFirst(result, objects[v.id]);
    } else if v.JClass? {
      merged := MergeFirst(result, map[CLASS_KEY := JStr(v.name)]);
    } else {
      merged := result;
      assert map[] + result == result;
    }
  }

  lemma AllUnfold(data: seq<Byte>, st: State, objects: seq<Obj>, result: Obj)
    requires Sound(data, st) && st.objects == |objects|
    ensures var all := ReadAll(data, st, objects, result);
            if st.pos >= |data| then all == Collected(result, objects)
            else if data[st.pos] == TC_ENDBLOCKDATA then all == ReadAll(data, st.Skip(1), objects, result)
            else if data[st.pos] == TC_RESET then all == ReadAll(data, st.Skip(1).(handles := []), objects, result)
            else
              var c := JavaStream.ReadContent(data, st);
              && (c.Failed? ==> all == Collected(result, objects))
              && (c.Panicked? ==> all == Panics)
              && (c.Endless? ==> all == Diverges)
              && (c.Done? ==>
                    var made := objects + c.value.1;
                    all == ReadAll(data, c.st, made, AsMap(c.value.0, made) + result))
  {
    hide JavaStream.ReadContent;
  }

  method DeserializeJavaArgs(data: seq<Byte>) returns (args: Args)
    ensures args == DeserializeArgs(data)
  {
    hide JavaStream.ReadContent, AsMap, ReadAll;
    var d := new JavaReader(data);
    if |data| >= 4 && data[..4] == [0xAC, 0xED, 0x00, 0x05] {
      d.pos := 4;
    }
    var result: Obj := map[];
    var made: seq<Obj> := [];
    ghost var all := DeserializeArgs(data);
    ghost var failed := false;
    while d.pos < |d.data|
      invariant d.data == data && d.Valid() && !failed
      invariant ReadAll(data, d.St(), d.objects, result) == all && made == d.objects
      decreases |data| - d.pos
    {
      AllUnfold(data, d.St(), d.objects, result);
      var tc := d.data[d.pos];
      if tc == TC_ENDBLOCKDATA {
        d.pos := d.pos + 1;
      } else if tc == TC_RESET {
        d.pos := d.pos + 1;
        d.handles := [];
      } else {
        var e, v := d.ReadContent();
        match e {
          case Error =>
            failed := true;
            break;
          case Panic => return Panics;
          case Loop => return Diverges;
          case Ok =>
        }
        made := d.objects;
        result := MergeValue(result, v, made);
      }
    }
    if !failed {
      AllUnfold(data, d.St(), d.objects, result);
    }
    if result == map[] {
      return NoArgs;
    }
    return Args(result, made);
  }
}
