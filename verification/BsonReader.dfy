/**
 The decoder and the look-ups as the source runs them (mongoport/mongo_protocol.go): loops that
 move a position and fill a map, proved to compute the functions of Bson.
 */
module BsonReader {
  import opened Wrappers
  import opened Bytes
  import opened Decimal
  import opened Tree
  import opened Bson
  import opened BsonSkip

  method FindNul(data: seq<Byte>, from: nat) returns (pos: nat)
    requires from <= |data|
    ensures pos == KeyEnd(data, from)
  {
    pos := from;
    while pos < |data| && data[pos] != 0
      invariant from <= pos <= |data| && KeyEnd(data, from) == KeyEnd(data, pos)
    {
      pos := pos + 1;
    }
  }

  /** Decoding a document fills a Go map element by element. */
  method BsonToMap(data: seq<Byte>) returns (r: Option<GoMap>)
    ensures r == DecodeDoc(data)
    decreases |data|, 2, 0
  {
    if |data| < 5 {
      return Some(NilMap);
    }
    var docSize := Le32At(data, 0);
    if docSize < 5 || docSize > |data| {
      docSize := |data|;
    }
    var m: map<Text, Value> := map[];
    var pos := 4;
    while pos + 1 < docSize
      invariant docSize == DocSize(data) && pos <= |data|
      invariant DecodeLoop(data, docSize, 4, map[]) == DecodeLoop(data, docSize, pos, m)
      decreases |data| - pos
    {
      if data[pos] == 0x00 {
        break;
      }
      var e := ParseBSONElement(data, pos);
      if e.None? {
        return None;
      }
      var Element(key, val, next) := e.value;
      if key != [] {
        m := m[key := val];
      }
      if next <= pos {
        break;
      }
      pos := next;
    }
    return Some(MapOf(m));
  }

  method ParseBSONElement(data: seq<Byte>, start: nat) returns (r: Option<Element>)
    ensures r == if start < |data| then DecodeElement(data, start) else Some(Element([], Null, start))
    decreases |data|, 0, 1
  {
    if start >= |data| {
      return Some(Element([], Null, start));
    }
    var typ := data[start];
    var keyStart := start + 1;
    var keyEnd := FindNul(data, keyStart);
    if keyEnd >= |data| {
      return Some(Element([], Null, keyEnd));
    }
    var key := data[keyStart..keyEnd];
    var v := ParseValue(data, keyEnd + 1, typ);
    if v.None? {
      return None;
    }
    var (val, nextPos) := v.value;
    if nextPos > |data| {
      nextPos := |data|;
    }
    return Some(Element(key, val, nextPos));
  }

  /** The type switch of an element; what does not fit the buffer leaves val and nextPos alone. */
  method ParseValue(data: seq<Byte>, pos: nat, typ: Byte) returns (r: Option<(Value, nat)>)
    requires 0 < pos <= |data|
    ensures r == DecodeValue(data, pos, typ)
    decreases |data|, 0, 0
  {
    var val, nextPos := Null, pos;
    if typ == 0x03 || typ == 0x04 {
      if pos + 4 <= |data| {
        var end := pos + Le32At(data, pos);
        if end <= |data| {
          var g := BsonToMap(data[pos..end]);
          if g.None? {
            return None;
          }
          if typ == 0x03 {
            val := Doc(g.value.Entries());
          } else {
            var slice := RebuildArray(g.value.Entries());
            val := Arr(slice);
          }
        }
        nextPos := end;
      }
    } else if typ == 0x0B {
      var patEnd := FindNul(data, pos);
      if patEnd == |data| {
        return None;
      }
      var optEnd := FindNul(data, patEnd + 1);
      var pat, opt := data[pos..patEnd], data[patEnd + 1..optEnd];
      val, nextPos := Str(Regex(pat, opt)), optEnd + 1;
    } else if Sized(typ) {
      val, nextPos := ParseSized(data, pos, typ);
    } else {
      val, nextPos := ParseFlat(data, pos, typ);
    }
    return Some((val, nextPos));
  }

  /** Values that carry their own length, other than documents. */
  method ParseSized(data: seq<Byte>, pos: nat, typ: Byte) returns (val: Value, nextPos: nat)
    requires pos <= |data| && Sized(typ)
    ensures (val, nextPos) == DecodeSized(data, pos, typ)
  {
    val, nextPos := Null, pos;
    if typ == 0x02 {
      if pos + 4 <= |data| {
        var length := Le32At(data, pos);
        var end := pos + 4 + length;
        if end <= |data| && length > 1 {
          val := Str(data[pos + 4..end - 1]);
        } else if end <= |data| {
          val := Str([]);
        }
        nextPos := end;
      }
    } else if typ == 0x05 {
      if pos + 5 <= |data| {
        var binLen := Le32At(data, pos);
        var end := pos + 5 + binLen;
        if end <= |data| {
          val := Str(Ascii("<binary ") + Digits(binLen) + Ascii(" bytes>"));
        }
        nextPos := end;
      }
    } else if typ == 0x0D {
      if pos + 4 <= |data| {
        var codeLen := Le32At(data, pos);
        var end := pos + 4 + codeLen;
        if end <= |data| && codeLen > 1 {
          val := Str(data[pos + 4..end - 1]);
        }
        nextPos := end;
      }
    } else {
      if pos + 4 <= |data| {
        var end := pos + Le32At(data, pos);
        if end <= |data| {
          val := Str(Ascii("<javascript with scope>"));
        }
        nextPos := end;
      }
    }
  }

  /** Values of a fixed width that is given by the type alone; an unknown type has none. */
  method ParseFlat(data: seq<Byte>, pos: nat, typ: Byte) returns (val: Value, nextPos: nat)
    requires pos <= |data|
    ensures (val, nextPos) == DecodeFixed(data, pos, typ)
  {
    val, nextPos := Null, pos;
    if typ == 0x01 {
      if pos + 8 <= |data| {
        val, nextPos := Double(data[pos..pos + 8]), pos + 8;
      }
    } else if typ == 0x09 {
      if pos + 8 <= |data| {
        val, nextPos := Time(AsInt64(Le(data[pos..pos + 8]))), pos + 8;
      }
    } else if typ == 0x08 {
      if pos < |data| {
        val, nextPos := Bool(data[pos] != 0x00), pos + 1;
      }
    } else if typ == 0x10 {
      if pos + 4 <= |data| {
        val, nextPos := Int32(AsInt32(Le32At(data, pos))), pos + 4;
      }
    } else if typ == 0x07 {
      if pos + 12 <= |data| {
        val, nextPos := Str(ObjectId(data[pos..pos + 12])), pos + 12;
      }
    } else if typ == 0x11 || typ == 0x12 {
      if pos + 8 <= |data| {
        val, nextPos := Int64(AsInt64(Le(data[pos..pos + 8]))), pos + 8;
      }
    } else if typ == 0x13 {
      if pos + 16 <= |data| {
        val, nextPos := Str(Ascii("<decimal128>")), pos + 16;
      }
    } else if typ == 0x06 {
      val := Str(Ascii("undefined"));
    } else if typ == 0x7F {
      val := Str(Ascii("<MinKey>"));
    } else if typ == 0xFF {
      val := Str(Ascii("<MaxKey>"));
    }
  }

  /** Looks up "0", "1", ... until a key is missing. */
  method RebuildArray(arr: map<Text, Value>) returns (slice: seq<Value>)
    ensures slice == ItemsFrom(arr, 0)
  {
    slice := [];
    var i := 0;
    ghost var all, rest := ItemsFrom(arr, 0), arr;
    assert all[0..] == all;
    while Digits(i) in arr
      invariant i <= |all| && slice == all[..i] && ItemsFrom(rest, i) == all[i..]
      invariant Removed(arr, rest, i)
      decreases |rest|
    {
      RemoveNext(arr, rest, i);
      assert all[i..][0] == all[i] && all[i..][1..] == all[i + 1..];
      slice := slice + [arr[Digits(i)]];
      rest := rest - {Digits(i)};
      i := i + 1;
    }
    StillMissing(arr, rest, i);
  }

  /** rest is arr without the first i decimal keys. */
  ghost predicate Removed(arr: map<Text, Value>, rest: map<Text, Value>, i: nat)
  {
    && (forall k: Text :: k in rest ==> k in arr && rest[k] == arr[k])
    && (forall j: nat :: i <= j && Digits(j) in arr ==> Digits(j) in rest)
  }

  lemma RemoveNext(arr: map<Text, Value>, rest: map<Text, Value>, i: nat)
    requires Removed(arr, rest, i) && Digits(i) in arr
    ensures Digits(i) in rest && Removed(arr, rest - {Digits(i)}, i + 1)
    ensures ItemsFrom(rest, i) == [arr[Digits(i)]] + ItemsFrom(rest - {Digits(i)}, i + 1)
    ensures |rest - {Digits(i)}| < |rest|
  {
    forall j: nat | i + 1 <= j && Digits(j) in arr
      ensures Digits(j) in rest - {Digits(i)}
    {
      DigitsInjective(i, j);
    }
    assert (rest - {Digits(i)}).Keys == rest.Keys - {Digits(i)};
  }

  lemma StillMissing(arr: map<Text, Value>, rest: map<Text, Value>, i: nat)
    requires Removed(arr, rest, i) && Digits(i) !in arr
    ensures ItemsFrom(rest, i) == []
  {
  }

  /** Whether a field is present at the top level; the source returns "(found)" or "". */
  method ExtractBSONValue(data: seq<Byte>, field: Text) returns (found: bool)
    ensures found == Finds(data, field)
  {
    if |data| < 5 {
      return false;
    }
    var pos := 4;
    while pos + 1 < |data|
      invariant FindsFrom(data, 4, field) == FindsFrom(data, pos, field)
      decreases |data| - pos
    {
      var typ := data[pos];
      if typ == 0x00 {
        break;
      }
      pos := pos + 1;
      var keyStart := pos;
      pos := FindNul(data, pos);
      var key := data[keyStart..pos];
      pos := pos + 1;
      pos := SkipValue(data, pos, typ);
      if key == field && field != [] {
        return true;
      }
    }
    return false;
  }

  method ExtractBSONFirstKey(data: seq<Byte>) returns (key: Text)
    ensures key == FirstKey(data)
  {
    if |data| < 5 {
      return [];
    }
    if data[4] == 0x00 {
      return [];
    }
    var end := FindNul(data, 5);
    return data[5..end];
  }
}
