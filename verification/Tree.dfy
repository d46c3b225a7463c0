/**
 Document trees: what decoding produces (maps, as in Go) and what encoding and printing walk
 (fields in some order).
 */
module Tree {
  import opened Bytes
  import opened Decimal

  /** A Go string. */
  type Text = seq<Byte>

  /** A double is its eight bytes, a time its milliseconds. */
  datatype Value =
    | Null
    | Bool(b: bool)
    | Int32(i: int)
    | Int64(i: int)
    | Str(s: Text)
    | Doc(m: map<Text, Value>)
    | Arr(items: seq<Value>)
    | Double(bits: seq<Byte>)
    | Time(ms: int)

  /** A tree whose documents list their fields in an order. */
  datatype Ordered =
    | ONull
    | OBool(b: bool)
    | OInt32(i: int)
    | OInt64(i: int)
    | OStr(s: Text)
    | ODoc(fields: seq<Field>)
    | OArr(items: seq<Ordered>)
    | ODouble(bits: seq<Byte>)
    | OTime(ms: int)

  datatype Field = Field(key: Text, val: Ordered)

  /** Forgetting the order; as in a Go map, a later field replaces an earlier one. */
  function Erase(o: Ordered): Value
    decreases o, 0
  {
    match o
    case ONull => Null
    case OBool(b) => Bool(b)
    case OInt32(i) => Int32(i)
    case OInt64(i) => Int64(i)
    case OStr(s) => Str(s)
    case ODoc(fields) => Doc(EraseOnto(map[], fields))
    case OArr(items) => Arr(EraseAll(items))
    case ODouble(bits) => Double(bits)
    case OTime(ms) => Time(ms)
  }

  function EraseOnto(m: map<Text, Value>, fields: seq<Field>): map<Text, Value>
    decreases fields, 1
  {
    if fields == [] then m
    else EraseOnto(m[fields[0].key := Erase(fields[0].val)], fields[1..])
  }

  function EraseAll(items: seq<Ordered>): (vs: seq<Value>)
    ensures |vs| == |items|
    decreases items, 1
  {
    if items == [] then [] else [Erase(items[0])] + EraseAll(items[1..])
  }

  ghost predicate DistinctKeys(fields: seq<Field>)
  {
    forall i, j :: 0 <= i < j < |fields| ==> fields[i].key != fields[j].key
  }

  /** Array items as fields keyed by their decimal index, from i on. */
  function Numbered(items: seq<Ordered>, i: nat): (fs: seq<Field>)
    ensures |fs| == |items|
    ensures forall k :: 0 <= k < |fs| ==> fs[k] == Field(Digits(i + k), items[k])
  {
    if items == [] then [] else [Field(Digits(i), items[0])] + Numbered(items[1..], i + 1)
  }

  lemma {:induction false} EraseOntoKeys(m: map<Text, Value>, fields: seq<Field>, key: Text)
    ensures key in EraseOnto(m, fields) <==> key in m || exists f <- fields :: f.key == key
    ensures (forall f <- fields :: f.key != key) && key in m ==> EraseOnto(m, fields)[key] == m[key]
    decreases |fields|
  {
    if fields != [] {
      EraseOntoKeys(m[fields[0].key := Erase(fields[0].val)], fields[1..], key);
      assert fields == [fields[0]] + fields[1..];
    }
  }

  /** With distinct keys every field keeps its own value. */
  lemma {:induction false} EraseOntoValue(m: map<Text, Value>, fields: seq<Field>, k: nat)
    requires DistinctKeys(fields) && k < |fields|
    ensures fields[k].key in EraseOnto(m, fields)
    ensures EraseOnto(m, fields)[fields[k].key] == Erase(fields[k].val)
    decreases |fields|
  {
    var m', rest := m[fields[0].key := Erase(fields[0].val)], fields[1..];
    if k == 0 {
      forall f <- rest
        ensures f.key != fields[0].key
      {
        var i :| 0 <= i < |rest| && rest[i] == f;
        assert f == fields[i + 1];
      }
      EraseOntoKeys(m', rest, fields[0].key);
    } else {
      EraseOntoValue(m', rest, k - 1);
    }
  }
}
