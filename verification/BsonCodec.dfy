/**
 The encoding of BSON 1.1 documents, and that encoded elements and values decode to themselves
 (mongoport/mongo_protocol.go).
 */
module BsonCodec {
  import opened Wrappers
  import opened Bytes
  import opened Decimal
  import opened Tree
  import opened Bson
  import opened Seqs

  /** A key that an element can carry and that the decoder keeps. */
  ghost predicate Storable(key: Text)
  {
    key != [] && 0 !in key
  }

  /** Trees that BSON can represent: values in range, distinct proper keys. */
  ghost predicate Encodable(o: Ordered)
    decreases o, 0
  {
    match o
    case OInt32(i) => -0x8000_0000 <= i < 0x8000_0000
    case OInt64(i) => -0x8000_0000_0000_0000 <= i < 0x8000_0000_0000_0000
    case ODoc(fields) => DistinctKeys(fields) && EncodableFields(fields)
    case OArr(items) => EncodableItems(items)
    case ODouble(bits) => |bits| == 8
    case OTime(ms) => -0x8000_0000_0000_0000 <= ms < 0x8000_0000_0000_0000
    case _ => true
  }

  ghost predicate EncodableFields(fields: seq<Field>)
    decreases fields, 1
  {
    fields == [] || (Storable(fields[0].key) && Encodable(fields[0].val) && EncodableFields(fields[1..]))
  }

  ghost predicate EncodableItems(items: seq<Ordered>)
    decreases items, 1
  {
    items == [] || (Encodable(items[0]) && EncodableItems(items[1..]))
  }

  function TypeOf(o: Ordered): Byte
  {
    match o
    case ONull => 0x0A
    case OBool(_) => 0x08
    case OInt32(_) => 0x10
    case OInt64(_) => 0x12
    case OStr(_) => 0x02
    case ODoc(_) => 0x03
    case OArr(_) => 0x04
    case ODouble(_) => 0x01
    case OTime(_) => 0x09
  }

  /** Length prefix, elements, terminator. */
  ghost function Framed(body: seq<Byte>): (b: seq<Byte>)
    ensures |b| == |body| + 5
  {
    PutLe(|body| + 5, 4) + (body + [0])
  }

  function PutInt64(i: int): seq<Byte>
    requires -0x8000_0000_0000_0000 <= i
  {
    PutLe(if i < 0 then i + 0x1_0000_0000_0000_0000 else i, 8)
  }

  ghost function EncodeValue(o: Ordered): seq<Byte>
    requires Encodable(o)
    decreases o, 0
  {
    match o
    case ONull => []
    case OBool(b) => [if b then 1 else 0]
    case OInt32(i) => PutLe(if i < 0 then i + 0x1_0000_0000 else i, 4)
    case OInt64(i) => PutInt64(i)
    case OStr(s) => PutLe(|s| + 1, 4) + (s + [0])
    case ODoc(fields) => Framed(EncodeFields(fields))
    case OArr(items) => Framed(EncodeItems(items, 0))
    case ODouble(bits) => bits
    case OTime(ms) => PutInt64(ms)
  }

  /** One element: type, key, terminator, value. */
  ghost function Tagged(typ: Byte, key: seq<Byte>, value: seq<Byte>): seq<Byte>
  {
    [typ] + (key + ([0] + value))
  }

  ghost function EncodeFields(fields: seq<Field>): seq<Byte>
    requires EncodableFields(fields)
    decreases fields, 1
  {
    if fields == [] then []
    else
      var f := fields[0];
      Tagged(TypeOf(f.val), f.key, EncodeValue(f.val)) + EncodeFields(fields[1..])
  }

  ghost function EncodeItems(items: seq<Ordered>, i: nat): seq<Byte>
    requires EncodableItems(items)
    decreases items, 1
  {
    if items == [] then []
    else Tagged(TypeOf(items[0]), Digits(i), EncodeValue(items[0])) + EncodeItems(items[1..], i + 1)
  }

  ghost function EncodeDoc(fields: seq<Field>): seq<Byte>
    requires Encodable(ODoc(fields))
  {
    EncodeValue(ODoc(fields))
  }

  /** An array is encoded as the document of its numbered items. */
  lemma {:induction false} ItemsAreFields(items: seq<Ordered>, i: nat)
    requires EncodableItems(items)
    ensures EncodableFields(Numbered(items, i))
    ensures EncodeItems(items, i) == EncodeFields(Numbered(items, i))
    decreases |items|
  {
    if items != [] {
      ItemsAreFields(items[1..], i + 1);
      assert Numbered(items, i)[1..] == Numbered(items[1..], i + 1);
      assert forall k :: 0 <= k < |Digits(i)| ==> Digits(i)[k] in Digits(i);
    }
  }

  lemma NumberedDistinct(items: seq<Ordered>, i: nat)
    ensures DistinctKeys(Numbered(items, i))
  {
    hide Digits;
    var fs := Numbered(items, i);
    forall k, l | 0 <= k < l < |fs|
      ensures fs[k].key != fs[l].key
    {
      DigitsInjective(i + k, i + l);
    }
  }

  // Decoding undoes encoding

  lemma Le32Of(data: seq<Byte>, pos: nat, x: nat)
    requires HasAt(data, pos, PutLe(x, 4)) && x < 0x1_0000_0000
    ensures pos + 4 <= |data| && Le32At(data, pos) == x
  {
    PowersOf256();
    LePutLe(x, 4);
  }

  /** The parts of an encoded element. */
  lemma TaggedParts(data: seq<Byte>, pos: nat, typ: Byte, key: seq<Byte>, value: seq<Byte>)
    requires HasAt(data, pos, Tagged(typ, key, value)) && 0 !in key
    ensures pos < |data| && data[pos] == typ
    ensures KeyEnd(data, pos + 1) == pos + 1 + |key| < |data|
    ensures data[pos + 1..pos + 1 + |key|] == key
    ensures HasAt(data, pos + 2 + |key|, value)
  {
    TaggedPieces(data, pos, typ, key, value);
  }

  lemma TaggedPieces(data: seq<Byte>, pos: nat, typ: Byte, key: seq<Byte>, value: seq<Byte>)
    requires HasAt(data, pos, [typ] + (key + ([0] + value))) && 0 !in key
    ensures pos < |data| && data[pos] == typ
    ensures KeyEnd(data, pos + 1) == pos + 1 + |key| < |data|
    ensures data[pos + 1..pos + 1 + |key|] == key
    ensures HasAt(data, pos + 2 + |key|, value)
  {
    hide *;
    HasParts(data, pos, [typ], key + ([0] + value));
    HasParts(data, pos + 1, key, [0] + value);
    HasParts(data, pos + 1 + |key|, [0], value);
    HasOne(data, pos, typ);
    HasOne(data, pos + 1 + |key|, 0);
    HasKey(data, pos + 1, key);
  }

  lemma HasOne(data: seq<Byte>, pos: nat, b: Byte)
    requires HasAt(data, pos, [b])
    ensures pos < |data| && data[pos] == b
  {
    assert data[pos..pos + 1][0] == data[pos];
  }

  lemma HasKey(data: seq<Byte>, pos: nat, key: seq<Byte>)
    requires HasAt(data, pos, key) && 0 !in key
    requires pos + |key| < |data| && data[pos + |key|] == 0
    ensures KeyEnd(data, pos) == pos + |key| && data[pos..pos + |key|] == key
  {
    KeyEndIs(data, pos, pos + |key|);
  }

  lemma {:induction false} KeyEndIs(data: seq<Byte>, pos: nat, end: nat)
    requires pos <= end < |data| && data[end] == 0
    requires 0 !in data[pos..end]
    ensures KeyEnd(data, pos) == end
    decreases end - pos
  {
    if pos < end {
      assert data[pos..end][0] == data[pos] && data[pos..end][1..] == data[pos + 1..end];
      KeyEndIs(data, pos + 1, end);
    }
  }

  lemma ScalarDecodes(o: Ordered, data: seq<Byte>, pos: nat)
    requires Encodable(o) && !o.ODoc? && !o.OArr?
    requires 0 < pos && HasAt(data, pos, EncodeValue(o)) && |EncodeValue(o)| < 0x1_0000_0000
    ensures DecodeValue(data, pos, TypeOf(o)) == Some((Erase(o), pos + |EncodeValue(o)|))
  {
    var v := EncodeValue(o);
    PowersOf256();
    match o
    case OBool(b) => assert data[pos..pos + 1][0] == data[pos];
    case OInt32(i) => LePutLe(if i < 0 then i + 0x1_0000_0000 else i, 4);
    case OInt64(i) => LePutLe(if i < 0 then i + 0x1_0000_0000_0000_0000 else i, 8);
    case OTime(ms) => LePutLe(if ms < 0 then ms + 0x1_0000_0000_0000_0000 else ms, 8);
    case OStr(s) =>
      var len := PutLe(|s| + 1, 4);
      HasParts(data, pos, len, s + [0]);
      HasParts(data, pos + 4, s, [0]);
      Le32Of(data, pos, |s| + 1);
    case _ =>
  }

  lemma ElementFrom(data: seq<Byte>, pos: nat, keyEnd: nat, val: Value, next: nat)
    requires pos < |data| && KeyEnd(data, pos + 1) == keyEnd < |data|
    requires DecodeValue(data, keyEnd + 1, data[pos]) == Some((val, next)) && next <= |data|
    ensures DecodeElement(data, pos) == Some(Element(data[pos + 1..keyEnd], val, next))
  {
    hide KeyEnd, DecodeValue;
  }

  lemma LoopStep(data: seq<Byte>, docSize: nat, pos: nat, m: map<Text, Value>, key: Text, val: Value, next: nat)
    requires pos + 1 < docSize <= |data| && data[pos] != 0
    requires DecodeElement(data, pos) == Some(Element(key, val, next)) && key != []
    ensures DecodeLoop(data, docSize, pos, m) == DecodeLoop(data, docSize, next, m[key := val])
  {
    hide DecodeElement;
  }

  lemma LoopEnd(data: seq<Byte>, docSize: nat, m: map<Text, Value>)
    requires 0 < docSize <= |data|
    ensures DecodeLoop(data, docSize, docSize - 1, m) == Some(m)
  {
  }

  /** The first of some encoded fields, and the rest. */
  lemma FieldsCons(fields: seq<Field>, m: map<Text, Value>)
    requires fields != [] && EncodableFields(fields)
    ensures var f, rest := fields[0], fields[1..];
            && Storable(f.key) && f.key != [] && 0 !in f.key
            && Encodable(f.val) && TypeOf(f.val) != 0 && EncodableFields(rest)
            && EncodeFields(fields) == Tagged(TypeOf(f.val), f.key, EncodeValue(f.val)) + EncodeFields(rest)
            && |Tagged(TypeOf(f.val), f.key, EncodeValue(f.val))| == 2 + |f.key| + |EncodeValue(f.val)|
            && EraseOnto(m, fields) == EraseOnto(m[f.key := Erase(f.val)], rest)
  {
  }

  lemma FieldsNil(fields: seq<Field>, m: map<Text, Value>)
    requires fields == []
    ensures EncodableFields(fields) && |EncodeFields(fields)| == 0 && EraseOnto(m, fields) == m
  {
  }

  /** The decoder's loop over encoded fields, starting from any map. */
  lemma {:induction false} FieldsDecode(fields: seq<Field>, data: seq<Byte>, docSize: nat, pos: nat, m: map<Text, Value>)
    requires EncodableFields(fields) && |EncodeFields(fields)| < 0x1_0000_0000
    requires HasAt(data, pos, EncodeFields(fields) + [0])
    requires docSize == pos + |EncodeFields(fields)| + 1 <= |data|
    ensures DecodeLoop(data, docSize, pos, m) == Some(EraseOnto(m, fields))
    decreases |EncodeFields(fields)|, 0
  {
    hide *;
    if fields == [] {
      FieldsNil(fields, m);
      LoopEnd(data, docSize, m);
    } else {
      FieldsCons(fields, m);
      var f, rest := fields[0], fields[1..];
      var val := Erase(f.val);
      var one := Tagged(TypeOf(f.val), f.key, EncodeValue(f.val));
      var next := pos + |one|;
      Assoc(one, EncodeFields(rest), [0]);
      ElementDecodes(f, data, pos, EncodeFields(rest) + [0]);
      LoopStep(data, docSize, pos, m, f.key, val, next);
      FieldsDecode(rest, data, docSize, next, m[f.key := val]);
    }
  }

  lemma ElementFacts(f: Field)
    requires Storable(f.key) && Encodable(f.val)
    ensures |Tagged(TypeOf(f.val), f.key, EncodeValue(f.val))| == 2 + |f.key| + |EncodeValue(f.val)|
    ensures f.key != [] && 0 !in f.key && TypeOf(f.val) != 0
  {
  }

  /** An encoded element decodes to its key and value, and the rest follows it. */
  lemma {:induction false} ElementDecodes(f: Field, data: seq<Byte>, pos: nat, rest: seq<Byte>)
    requires Storable(f.key) && Encodable(f.val)
    requires |Tagged(TypeOf(f.val), f.key, EncodeValue(f.val))| < 0x1_0000_0000
    requires HasAt(data, pos, Tagged(TypeOf(f.val), f.key, EncodeValue(f.val)) + rest)
    ensures var next := pos + |Tagged(TypeOf(f.val), f.key, EncodeValue(f.val))|;
            && DecodeElement(data, pos) == Some(Element(f.key, Erase(f.val), next))
            && HasAt(data, next, rest)
    ensures data[pos] != 0
    decreases |EncodeValue(f.val)|, 3
  {
    hide *;
    ElementFacts(f);
    var key, value := f.key, EncodeValue(f.val);
    var one := Tagged(TypeOf(f.val), key, value);
    var at := pos + 2 + |key|;
    HasParts(data, pos, one, rest);
    TaggedParts(data, pos, TypeOf(f.val), key, value);
    ValueDecodes(f.val, data, at);
    ElementFrom(data, pos, pos + 1 + |key|, Erase(f.val), at + |value|);
  }

  /** A framed document decodes to its fields, whatever follows it. */
  lemma {:induction false} FrameDecodes(fields: seq<Field>, tail: seq<Byte>)
    requires EncodableFields(fields) && |EncodeFields(fields)| + 5 < 0x1_0000_0000
    ensures DecodeDoc(Framed(EncodeFields(fields)) + tail) == Some(MapOf(EraseOnto(map[], fields)))
    decreases |EncodeFields(fields)|, 1
  {
    var body := EncodeFields(fields);
    var data := Framed(body) + tail;
    var len := PutLe(|body| + 5, 4);
    Assoc(len, body + [0], tail);
    assert data[0..|data|] == data;
    HasParts(data, 0, len, (body + [0]) + tail);
    HasParts(data, 4, body + [0], tail);
    Le32Of(data, 0, |body| + 5);
    FieldsDecode(fields, data, |body| + 5, 4, map[]);
  }

  lemma {:induction false} ValueDecodes(o: Ordered, data: seq<Byte>, pos: nat)
    requires Encodable(o) && |EncodeValue(o)| < 0x1_0000_0000
    requires 0 < pos && HasAt(data, pos, EncodeValue(o))
    ensures pos + |EncodeValue(o)| <= |data|
    ensures DecodeValue(data, pos, TypeOf(o)) == Some((Erase(o), pos + |EncodeValue(o)|))
    decreases |EncodeValue(o)|, 2
  {
    hide DecodeValue, DecodeDoc, Le32At, EncodeFields, EncodeItems, Numbered, ItemsFrom, EraseOnto, Erase, Encodable,
         EncodeValue, TypeOf;
    NestedFacts(o);
    match o
    case ODoc(fields) =>
      NestedDecodes(fields, data, pos);
      DocFrom(data, pos, EraseOnto(map[], fields));
    case OArr(items) =>
      ItemsAreFields(items, 0);
      NestedDecodes(Numbered(items, 0), data, pos);
      NumberedRebuilds(items);
      DocFrom(data, pos, EraseOnto(map[], Numbered(items, 0)));
    case _ =>
      ScalarDecodes(o, data, pos);
  }

  lemma NestedFacts(o: Ordered)
    requires Encodable(o)
    ensures match o
            case ODoc(fields) =>
              && EncodableFields(fields) && EncodeValue(o) == Framed(EncodeFields(fields))
              && Erase(o) == Doc(EraseOnto(map[], fields)) && TypeOf(o) == 0x03
            case OArr(items) =>
              && EncodableItems(items) && EncodeValue(o) == Framed(EncodeItems(items, 0))
              && Erase(o) == Arr(EraseAll(items)) && TypeOf(o) == 0x04
            case _ => true
  {
  }

  /** The two nested types, from what the nested slice decodes to. */
  lemma DocFrom(data: seq<Byte>, pos: nat, m: map<Text, Value>)
    requires 0 < pos && pos + 4 <= |data| && pos + Le32At(data, pos) <= |data|
    requires DecodeDoc(data[pos..pos + Le32At(data, pos)]) == Some(MapOf(m))
    ensures DecodeValue(data, pos, 0x03) == Some((Doc(m), pos + Le32At(data, pos)))
    ensures DecodeValue(data, pos, 0x04) == Some((Arr(ItemsFrom(m, 0)), pos + Le32At(data, pos)))
  {
    hide DecodeDoc, ItemsFrom, Le32At;
  }

  /** A framed document inside a buffer: its length, and what its slice decodes to. */
  lemma {:induction false} NestedDecodes(fields: seq<Field>, data: seq<Byte>, pos: nat)
    requires EncodableFields(fields)
    requires var v := Framed(EncodeFields(fields)); |v| < 0x1_0000_0000 && HasAt(data, pos, v)
    ensures var end := pos + |Framed(EncodeFields(fields))|;
            && pos + 4 <= end <= |data| && pos + Le32At(data, pos) == end
            && DecodeDoc(data[pos..end]) == Some(MapOf(EraseOnto(map[], fields)))
    decreases |EncodeFields(fields)|, 2
  {
    var body := EncodeFields(fields);
    var v := Framed(body);
    HasParts(data, pos, PutLe(|body| + 5, 4), body + [0]);
    Le32Of(data, pos, |body| + 5);
    FrameDecodes(fields, []);
    assert v + [] == v;
  }

  /** m holds the items under the keys i, i + 1, ... and nothing under the key after them. */
  ghost predicate Holds(m: map<Text, Value>, items: seq<Ordered>, i: nat)
  {
    && (forall k :: 0 <= k < |items| ==> HoldsAt(m, i + k, items[k]))
    && Digits(i + |items|) !in m
  }

  ghost predicate HoldsAt(m: map<Text, Value>, k: nat, item: Ordered)
  {
    Digits(k) in m && m[Digits(k)] == Erase(item)
  }

  /** Rebuilding an array from the map of its numbered items gives the items back. */
  lemma NumberedRebuilds(items: seq<Ordered>)
    ensures ItemsFrom(EraseOnto(map[], Numbered(items, 0)), 0) == EraseAll(items)
  {
    hide Digits, Erase, EraseOnto, Numbered, ItemsFrom, HoldsAt, EraseAll;
    var m := EraseOnto(map[], Numbered(items, 0));
    forall k | 0 <= k < |items|
      ensures HoldsAt(m, 0 + k, items[k])
    {
      NumberedValue(items, k);
    }
    NoSuchNumber(items);
    ItemsRebuild(items, m, 0);
  }

  lemma NumberedValue(items: seq<Ordered>, k: nat)
    requires k < |items|
    ensures HoldsAt(EraseOnto(map[], Numbered(items, 0)), k, items[k])
  {
    var fs := Numbered(items, 0);
    NumberedDistinct(items, 0);
    assert fs[k] == Field(Digits(k), items[k]);
    hide Digits, Erase, EraseOnto, Numbered;
    EraseOntoValue(map[], fs, k);
  }

  lemma NoSuchNumber(items: seq<Ordered>)
    ensures Digits(|items|) !in EraseOnto(map[], Numbered(items, 0))
  {
    var fs := Numbered(items, 0);
    hide Digits, Erase, EraseOnto, Numbered;
    EraseOntoKeys(map[], fs, Digits(|items|));
    forall f <- fs
      ensures f.key != Digits(|items|)
    {
      var k :| 0 <= k < |fs| && fs[k] == f;
      DigitsInjective(k, |items|);
    }
  }

  lemma {:induction false} ItemsRebuild(items: seq<Ordered>, m: map<Text, Value>, i: nat)
    requires Holds(m, items, i)
    ensures ItemsFrom(m, i) == EraseAll(items)
    decreases |items|
  {
    hide Digits, Erase;
    if items != [] {
      assert HoldsAt(m, i + 0, items[0]);
      var m', rest := m - {Digits(i)}, items[1..];
      forall k | 0 <= k < |rest|
        ensures HoldsAt(m', i + 1 + k, rest[k])
      {
        DigitsInjective(i, i + 1 + k);
        assert HoldsAt(m, i + (k + 1), items[k + 1]);
      }
      ItemsRebuild(rest, m', i + 1);
    }
  }
}
