/** The printer of flat documents (tools/protocol_sender.go), and what decoding makes of its output. */
module BsonPrinter {
  import opened Bytes
  import opened Tree
  import opened Bson
  import opened BsonCodec
  import opened Seqs

  /** The Go values buildBSON is given; FOther stands for all that it does not print. */
  datatype Flat = FInt32(i: Int32Range) | FInt(n: int) | FString(s: seq<Byte>) | FOther

  type Int32Range = x: int | -0x8000_0000 <= x < 0x8000_0000

  datatype FlatField = FlatField(key: seq<Byte>, val: Flat)

  /** uint32(v), the conversion before four bytes are appended. */
  function ToUint32(v: int): nat
  {
    v % 0x1_0000_0000
  }

  /** The element of one entry: a type byte, the key with its terminator, and the value. */
  ghost function FlatElement(f: FlatField): seq<Byte>
  {
    match f.val
    case FInt32(i) => Tagged(0x10, f.key, PutLe(ToUint32(i), 4))
    case FInt(n) => Tagged(0x10, f.key, PutLe(ToUint32(n), 4))
    case FString(s) => Tagged(0x02, f.key, PutLe(|s| + 1, 4) + (s + [0]))
    case FOther => []
  }

  ghost function FlatBody(doc: seq<FlatField>): seq<Byte>
  {
    if doc == [] then [] else FlatBody(doc[..|doc| - 1]) + FlatElement(doc[|doc| - 1])
  }

  method AppendInt32(b0: seq<Byte>, key: seq<Byte>, x: nat) returns (b: seq<Byte>)
    ensures b == b0 + Tagged(0x10, key, PutLe(x, 4))
  {
    b := b0 + [0x10];
    b := b + key;
    b := b + [0x00];
    b := b + PutLe(x, 4);
  }

  method AppendString(b0: seq<Byte>, key: seq<Byte>, s: seq<Byte>) returns (b: seq<Byte>)
    ensures b == b0 + Tagged(0x02, key, PutLe(|s| + 1, 4) + (s + [0]))
  {
    b := b0 + [0x02];
    b := b + key;
    b := b + [0x00];
    b := b + PutLe(|s| + 1, 4);
    b := b + s;
    b := b + [0x00];
  }

  /** Any keys and values; doc is one iteration order of the map. The length is filled in at the end. */
  method BuildBSON(doc: seq<FlatField>) returns (b: seq<Byte>)
    ensures b == Framed(FlatBody(doc))
  {
    hide FlatElement, Tagged, ToUint32;
    var hole: seq<Byte> := [0, 0, 0, 0];
    b := hole;
    var i := 0;
    NoBody(hole);
    while i < |doc|
      invariant 0 <= i <= |doc| && b == hole + FlatBody(doc[..i])
    {
      var FlatField(key, v) := doc[i];
      Elements(doc[i]);
      BodyStep(hole, doc, i);
      if v.FInt32? {
        b := AppendInt32(b, key, ToUint32(v.i));
      } else if v.FString? {
        b := AppendString(b, key, v.s);
      } else if v.FInt? {
        b := AppendInt32(b, key, ToUint32(v.n));
      }
      i := i + 1;
    }
    assert doc[..i] == doc;
    b := b + [0x00];
    Finished(hole, FlatBody(doc));
    b := PutLe(|b|, 4) + b[4..];
  }

  lemma NoBody(hole: seq<Byte>)
    ensures forall doc: seq<FlatField> :: |doc| == 0 ==> hole + FlatBody(doc) == hole
  {
  }

  lemma Elements(f: FlatField)
    ensures match f.val
            case FInt32(n) => FlatElement(f) == Tagged(0x10, f.key, PutLe(ToUint32(n), 4))
            case FInt(n) => FlatElement(f) == Tagged(0x10, f.key, PutLe(ToUint32(n), 4))
            case FString(s) => FlatElement(f) == Tagged(0x02, f.key, PutLe(|s| + 1, 4) + (s + [0]))
            case FOther => FlatElement(f) == []
  {
  }

  lemma BodyStep(hole: seq<Byte>, doc: seq<FlatField>, i: nat)
    requires i < |doc|
    ensures hole + FlatBody(doc[..i + 1]) == (hole + FlatBody(doc[..i])) + FlatElement(doc[i])
  {
    assert doc[..i + 1][..i] == doc[..i];
  }

  lemma Finished(hole: seq<Byte>, body: seq<Byte>)
    requires |hole| == 4
    ensures |hole + body + [0]| == |body| + 5 && (hole + body + [0])[4..] == body + [0]
  {
  }

  // What decoding makes of it.

  /** The fields that a document has on the wire; an int is cut to 32 bits. */
  function Printed(doc: seq<FlatField>): seq<Field>
  {
    if doc == [] then []
    else Printed(doc[..|doc| - 1]) + PrintedField(doc[|doc| - 1])
  }

  function PrintedField(f: FlatField): (fs: seq<Field>)
    ensures |fs| <= 1
  {
    match f.val
    case FInt32(i) => [Field(f.key, OInt32(i))]
    case FInt(n) => [Field(f.key, OInt32(AsInt32(ToUint32(n))))]
    case FString(s) => [Field(f.key, OStr(s))]
    case FOther => []
  }

  lemma {:induction false} FieldsAppend(fields: seq<Field>, more: seq<Field>)
    requires EncodableFields(fields) && EncodableFields(more)
    ensures EncodableFields(fields + more)
    ensures EncodeFields(fields + more) == EncodeFields(fields) + EncodeFields(more)
    decreases |fields|
  {
    hide *;
    if fields == [] {
      FieldsNil(fields, map[]);
      EmptyLeft(fields, more);
      EmptyLeft(EncodeFields(fields), EncodeFields(more));
    } else {
      var f, rest := fields[0], fields[1..];
      FieldsCons(fields, map[]);
      FieldsAppend(rest, more);
      var one := Tagged(TypeOf(f.val), f.key, EncodeValue(f.val));
      Assoc(one, EncodeFields(rest), EncodeFields(more));
      HeadTail(fields);
      Assoc([f], rest, more);
      ConsEncodes(f, rest + more);
    }
  }

  lemma ConsEncodes(f: Field, fields: seq<Field>)
    requires Storable(f.key) && Encodable(f.val) && EncodableFields(fields)
    ensures EncodableFields([f] + fields)
    ensures EncodeFields([f] + fields) == Tagged(TypeOf(f.val), f.key, EncodeValue(f.val)) + EncodeFields(fields)
  {
    hide Encodable, EncodeValue, Tagged;
    assert ([f] + fields)[1..] == fields;
  }

  lemma ElementPrinted(f: FlatField)
    requires Storable(f.key)
    ensures EncodableFields(PrintedField(f)) && EncodeFields(PrintedField(f)) == FlatElement(f)
  {
    var fs := PrintedField(f);
    if fs != [] {
      var v := fs[0].val;
      assert fs[1..] == [] && Encodable(v);
      assert EncodeFields(fs) == Tagged(TypeOf(v), f.key, EncodeValue(v)) + [];
      if f.val.FInt32? || f.val.FInt? {
        SignCut(if f.val.FInt32? then f.val.i else f.val.n);
      }
    }
  }

  /** Cutting to 32 bits and reading back as signed keeps the bits, and keeps what fits. */
  lemma SignCut(v: int)
    ensures var i := AsInt32(ToUint32(v));
            && -0x8000_0000 <= i < 0x8000_0000
            && (if i < 0 then i + 0x1_0000_0000 else i) == ToUint32(v)
            && (-0x8000_0000 <= v < 0x8000_0000 ==> i == v)
  {
  }

  lemma {:induction false} BodyPrinted(doc: seq<FlatField>)
    requires forall f <- doc :: Storable(f.key)
    ensures EncodableFields(Printed(doc)) && EncodeFields(Printed(doc)) == FlatBody(doc)
  {
    hide FlatElement, Storable, PrintedField;
    if doc != [] {
      BodyPrinted(doc[..|doc| - 1]);
      assert doc[|doc| - 1] in doc;
      ElementPrinted(doc[|doc| - 1]);
      FieldsAppend(Printed(doc[..|doc| - 1]), PrintedField(doc[|doc| - 1]));
    }
  }

  /** What the map has for an entry after decoding. */
  ghost predicate Kept(m: map<Text, Value>, f: FlatField)
  {
    match f.val
    case FInt32(i) => f.key in m && m[f.key] == Int32(i)
    case FInt(n) =>
      && f.key in m && m[f.key] == Int32(AsInt32(ToUint32(n)))
      && (-0x8000_0000 <= n < 0x8000_0000 ==> m[f.key] == Int32(n))
    case FString(s) => f.key in m && m[f.key] == Str(s)
    case FOther => f.key !in m
  }

  ghost predicate Distinct(doc: seq<FlatField>)
  {
    forall i, j :: 0 <= i < j < |doc| ==> doc[i].key != doc[j].key
  }

  lemma {:induction false} EraseOntoSplit(m: map<Text, Value>, fields: seq<Field>, more: seq<Field>)
    ensures EraseOnto(m, fields + more) == EraseOnto(EraseOnto(m, fields), more)
    decreases |fields|
  {
    hide Erase;
    if fields == [] {
      assert fields + more == more;
    } else {
      EraseOntoSplit(m[fields[0].key := Erase(fields[0].val)], fields[1..], more);
      assert (fields + more)[1..] == fields[1..] + more;
    }
  }

  lemma OneKept(m: map<Text, Value>, f: FlatField)
    requires f.key !in m
    ensures var r := EraseOnto(m, PrintedField(f));
            Kept(r, f) && m.Keys <= r.Keys <= m.Keys + {f.key} && forall k <- m :: r[k] == m[k]
  {
    var fs := PrintedField(f);
    if fs != [] {
      assert fs[1..] == [];
      assert EraseOnto(m, fs) == m[f.key := Erase(fs[0].val)];
      if f.val.FInt? {
        SignCut(f.val.n);
      }
    }
  }

  lemma KeptOn(m: map<Text, Value>, r: map<Text, Value>, f: FlatField, g: FlatField)
    requires Kept(m, f) && f.key != g.key
    requires m.Keys <= r.Keys <= m.Keys + {g.key} && forall k <- m :: r[k] == m[k]
    ensures Kept(r, f)
  {
  }

  /** Every entry keeps its own value, and no other keys come up. */
  lemma {:induction false} AllKept(doc: seq<FlatField>)
    requires Distinct(doc)
    ensures var m := EraseOnto(map[], Printed(doc));
            && (forall i :: 0 <= i < |doc| ==> Kept(m, doc[i]))
            && (forall k <- m :: exists i :: 0 <= i < |doc| && doc[i].key == k)
  {
    hide EraseOnto, PrintedField, Kept;
    if doc == [] {
      NothingErased();
    } else {
      var n := |doc| - 1;
      var front, f := doc[..n], doc[n];
      AllKept(front);
      EraseOntoSplit(map[], Printed(front), PrintedField(f));
      var m := EraseOnto(map[], Printed(front));
      var r := EraseOnto(m, PrintedField(f));
      assert f.key !in m;
      OneKept(m, f);
      forall i | 0 <= i < |doc|
        ensures Kept(r, doc[i])
      {
        if i < n {
          assert front[i] == doc[i];
          KeptOn(m, r, doc[i], f);
        }
      }
      forall k <- r
        ensures exists i :: 0 <= i < |doc| && doc[i].key == k
      {
        if k in m {
          var i :| 0 <= i < |front| && front[i].key == k;
          assert doc[i].key == k;
        } else {
          assert doc[n].key == k;
        }
      }
    }
  }

  lemma NothingErased()
    ensures EraseOnto(map[], []) == map[]
  {
  }

  /**
   What the printer writes for a map with proper keys decodes, whatever follows it, to the same
   keys with the caller's own values; ints that do not fit lose their high bits.
   */
  lemma PrintedDecodes(doc: seq<FlatField>, tail: seq<Byte>)
    requires Distinct(doc) && forall f <- doc :: Storable(f.key)
    requires |FlatBody(doc)| + 5 < 0x1_0000_0000
    ensures var r := DecodeDoc(Framed(FlatBody(doc)) + tail);
            && r.Some? && r.value.MapOf?
            && (forall i :: 0 <= i < |doc| ==> Kept(r.value.m, doc[i]))
            && (forall k <- r.value.m :: exists i :: 0 <= i < |doc| && doc[i].key == k)
  {
    hide DecodeDoc, FlatBody, Printed, Kept, EraseOnto, EncodeFields, EncodableFields;
    BodyPrinted(doc);
    FrameDecodes(Printed(doc), tail);
    AllKept(doc);
  }
}
