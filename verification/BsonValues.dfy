/**
 What the decoder shows of the BSON types that have no value of their own in Go
 (mongoport/mongo_protocol.go), at whatever place of a document they stand.
 */
module BsonValues {
  import opened Wrappers
  import opened Bytes
  import opened Decimal
  import opened Seqs
  import opened Tree
  import opened Bson
  import opened BsonCodec
  import opened Json

  /** An element of a type whose value starts at a position. */
  ghost predicate ElementAt(data: seq<Byte>, pos: nat, typ: Byte, at: nat) {
    pos < |data| && data[pos] == typ && KeyEnd(data, pos + 1) + 1 == at <= |data|
  }

  /** The element decodes to its key and a value that ends before next. */
  ghost predicate Decodes(data: seq<Byte>, pos: nat, val: Value, next: nat) {
    pos < |data| && DecodeElement(data, pos) == Some(Element(data[pos + 1..KeyEnd(data, pos + 1)], val, next))
  }

  lemma ElementDecodes(data: seq<Byte>, pos: nat, typ: Byte, at: nat, val: Value, next: nat)
    requires ElementAt(data, pos, typ, at) && at > 0
    requires DecodeValue(data, at, typ) == Some((val, next)) && next <= |data|
    ensures Decodes(data, pos, val, next)
  {
    hide DecodeValue, KeyEnd;
  }

  // Object identifiers.

  /** Two lower-case hexadecimal digits and the byte they stand for. */
  ghost predicate HexPair(hi: int, lo: int, b: Byte)
    requires 0 <= hi < 256 && 0 <= lo < 256
  {
    && HexValue(hi).Some? && HexValue(lo).Some? && 16 * HexValue(hi).value + HexValue(lo).value == b
    && !('A' as int <= hi <= 'F' as int) && !('A' as int <= lo <= 'F' as int)
  }

  lemma {:induction false} HexAt(b: seq<Byte>, i: nat)
    requires i < |b|
    ensures |Hex(b)| == 2 * |b| && HexPair(Hex(b)[2 * i], Hex(b)[2 * i + 1], b[i])
    decreases |b|
  {
    HexSize(b);
    var pair, rest := [HexDigit(b[0] / 16), HexDigit(b[0] % 16)], Hex(b[1..]);
    assert Hex(b) == pair + rest;
    if i > 0 {
      HexAt(b[1..], i - 1);
      assert Hex(b)[2 * i] == rest[2 * (i - 1)] && Hex(b)[2 * i + 1] == rest[2 * (i - 1) + 1];
    }
  }

  lemma {:induction false} HexSize(b: seq<Byte>)
    ensures |Hex(b)| == 2 * |b|
    decreases |b|
  {
    if b != [] {
      HexSize(b[1..]);
    }
  }

  /** ObjectId("...") with two digits for each of the twelve bytes. */
  ghost predicate IsObjectId(text: Text, id: seq<Byte>)
    requires |id| == 12
  {
    && |text| == 36 && text[..10] == Ascii("ObjectId(\"") && text[34..] == Ascii("\")")
    && forall i :: 0 <= i < 12 ==> HexPair(text[10 + 2 * i], text[11 + 2 * i], id[i])
  }

  lemma ObjectIdText(id: seq<Byte>)
    requires |id| == 12
    ensures IsObjectId(ObjectId(id), id)
  {
    hide Hex, Ascii;
    HexSize(id);
    var text := ObjectId(id);
    assert |Ascii("ObjectId(\"")| == 10 && |Ascii("\")")| == 2;
    assert text[..10] == Ascii("ObjectId(\"") && text[34..] == Ascii("\")");
    forall i | 0 <= i < 12
      ensures HexPair(text[10 + 2 * i], text[11 + 2 * i], id[i])
    {
      HexAt(id, i);
      assert text[10 + 2 * i] == Hex(id)[2 * i] && text[11 + 2 * i] == Hex(id)[2 * i + 1];
    }
  }

  lemma ObjectIdShown(data: seq<Byte>, pos: nat, at: nat) returns (text: Text)
    requires ElementAt(data, pos, 0x07, at) && at + 12 <= |data|
    ensures Decodes(data, pos, Str(text), at + 12) && IsObjectId(text, data[at..at + 12])
  {
    hide Hex, IsObjectId, KeyEnd, ObjectId;
    text := ObjectId(data[at..at + 12]);
    ObjectIdText(data[at..at + 12]);
    ElementDecodes(data, pos, 0x07, at, Str(text), at + 12);
  }

  // Binary data and regular expressions.

  /** The length in decimal, without leading zeros, between fixed words. */
  ghost predicate IsBinary(text: Text, n: nat)
  {
    exists ds: seq<Byte> :: IsBinaryOf(text, ds, n)
  }

  ghost predicate IsBinaryOf(text: Text, ds: seq<Byte>, n: nat)
  {
    && text == Ascii("<binary ") + ds + Ascii(" bytes>")
    && ds != [] && AllDigits(ds) && Undigits(ds) == n && (|ds| > 1 ==> ds[0] != ZERO)
  }

  lemma BinaryShown(data: seq<Byte>, pos: nat, at: nat, subtype: Byte, bytes: seq<Byte>) returns (text: Text)
    requires ElementAt(data, pos, 0x05, at) && |bytes| < 0x1_0000_0000
    requires HasAt(data, at, PutLe(|bytes|, 4) + ([subtype] + bytes))
    ensures Decodes(data, pos, Str(text), at + 5 + |bytes|) && IsBinary(text, |bytes|)
  {
    hide KeyEnd, Digits, Undigits, Ascii, Le32At, PutLe;
    text := Ascii("<binary ") + Digits(|bytes|) + Ascii(" bytes>");
    HasParts(data, at, PutLe(|bytes|, 4), [subtype] + bytes);
    Le32Of(data, at, |bytes|);
    UndigitsDigits(|bytes|);
    LeadingDigit(|bytes|);
    assert IsBinaryOf(text, Digits(|bytes|), |bytes|);
    ElementDecodes(data, pos, 0x05, at, Str(text), at + 5 + |bytes|);
  }

  lemma LeadingDigit(n: nat)
    ensures |Digits(n)| > 1 ==> Digits(n)[0] != ZERO
  {
  }

  lemma RegexText(pattern: seq<Byte>, options: seq<Byte>)
    ensures var text := Regex(pattern, options);
            && |text| == |pattern| + |options| + 2 && text[0] == '/' as int && text[1 + |pattern|] == '/' as int
            && text[1..1 + |pattern|] == pattern && text[2 + |pattern|..] == options
  {
  }

  lemma RegexLaid(data: seq<Byte>, at: nat, pattern: seq<Byte>, options: seq<Byte>)
    requires 0 !in pattern && 0 !in options && HasAt(data, at, pattern + ([0] + (options + [0])))
    ensures var second := at + |pattern| + 1;
            && second + |options| < |data| && KeyEnd(data, at) == at + |pattern|
            && KeyEnd(data, second) == second + |options|
            && data[at..at + |pattern|] == pattern && data[second..second + |options|] == options
  {
    hide KeyEnd;
    var second := at + |pattern| + 1;
    HasParts(data, at, pattern, [0] + (options + [0]));
    HasParts(data, at + |pattern|, [0], options + [0]);
    HasParts(data, second, options, [0]);
    HasOne(data, at + |pattern|, 0);
    HasOne(data, second + |options|, 0);
    KeyEndIs(data, at, at + |pattern|);
    KeyEndIs(data, second, second + |options|);
  }

  lemma RegexValue(data: seq<Byte>, at: nat, first: nat, second: nat)
    requires 0 < at <= |data| && KeyEnd(data, at) == first < |data| && KeyEnd(data, first + 1) == second
    ensures DecodeValue(data, at, 0x0B) == Some((Str(Regex(data[at..first], data[first + 1..second])), second + 1))
  {
    hide KeyEnd, DecodeDoc, Le32At, ItemsFrom, DecodeFixed, DecodeSized, Regex;
  }

  /** A slash before the pattern and one before the options. */
  lemma RegexShown(data: seq<Byte>, pos: nat, at: nat, pattern: seq<Byte>, options: seq<Byte>) returns (text: Text)
    requires ElementAt(data, pos, 0x0B, at) && 0 !in pattern && 0 !in options
    requires HasAt(data, at, pattern + ([0] + (options + [0])))
    ensures Decodes(data, pos, Str(text), at + |pattern| + |options| + 2)
    ensures |text| == |pattern| + |options| + 2 && text[0] == '/' as int && text[1 + |pattern|] == '/' as int
    ensures text[1..1 + |pattern|] == pattern && text[2 + |pattern|..] == options
  {
    hide *;
    text := Regex(pattern, options);
    RegexText(pattern, options);
    ElementPlace(data, pos, 0x0B, at);
    RegexLaid(data, at, pattern, options);
    RegexValue(data, at, at + |pattern|, at + |pattern| + 1 + |options|);
    ElementDecodes(data, pos, 0x0B, at, Str(text), at + |pattern| + |options| + 2);
  }

  // Code, time stamps and the constants.

  lemma CodeValue(data: seq<Byte>, at: nat, n: nat)
    requires 0 < at && 0 < n && at + 4 + n <= |data| && Le32At(data, at) == n
    ensures DecodeValue(data, at, 0x0D) == Some((if n > 1 then Str(data[at + 4..at + 3 + n]) else Null, at + 4 + n))
  {
    hide Le32At, DecodeFixed, DecodeDoc, ItemsFrom, Ascii, Digits;
  }

  lemma CodeLaid(data: seq<Byte>, at: nat, code: seq<Byte>)
    requires |code| + 1 < 0x1_0000_0000 && HasAt(data, at, PutLe(|code| + 1, 4) + (code + [0]))
    ensures at + 5 + |code| <= |data| && Le32At(data, at) == |code| + 1
    ensures data[at + 4..at + 4 + |code|] == code
  {
    hide Le32At, PutLe;
    HasParts(data, at, PutLe(|code| + 1, 4), code + [0]);
    HasParts(data, at + 4, code, [0]);
    Le32Of(data, at, |code| + 1);
  }

  /** Code is a string, but empty code is no value. */
  lemma CodeShown(data: seq<Byte>, pos: nat, at: nat, code: seq<Byte>)
    requires ElementAt(data, pos, 0x0D, at) && |code| + 1 < 0x1_0000_0000
    requires HasAt(data, at, PutLe(|code| + 1, 4) + (code + [0]))
    ensures Decodes(data, pos, if code == [] then Null else Str(code), at + |code| + 5)
  {
    hide *;
    ElementPlace(data, pos, 0x0D, at);
    CodeLaid(data, at, code);
    CodeValue(data, at, |code| + 1);
    ElementDecodes(data, pos, 0x0D, at, if code == [] then Null else Str(code), at + |code| + 5);
  }

  lemma ElementPlace(data: seq<Byte>, pos: nat, typ: Byte, at: nat)
    requires ElementAt(data, pos, typ, at)
    ensures 0 < at
  {
    hide KeyEnd;
  }

  /** Of code with its scope only the length counts. */
  lemma ScopedCodeShown(data: seq<Byte>, pos: nat, at: nat, n: nat)
    requires ElementAt(data, pos, 0x0F, at) && 4 <= n < 0x1_0000_0000 && at + n <= |data|
    requires HasAt(data, at, PutLe(n, 4))
    ensures Decodes(data, pos, Str(Ascii("<javascript with scope>")), at + n)
  {
    hide KeyEnd, Le32At, PutLe, Ascii;
    Le32Of(data, at, n);
    ElementDecodes(data, pos, 0x0F, at, Str(Ascii("<javascript with scope>")), at + n);
  }

  lemma TimestampShown(data: seq<Byte>, pos: nat, at: nat, i: int)
    requires ElementAt(data, pos, 0x11, at)
    requires -0x8000_0000_0000_0000 <= i < 0x8000_0000_0000_0000 && HasAt(data, at, PutInt64(i))
    ensures Decodes(data, pos, Int64(i), at + 8)
  {
    hide KeyEnd, Le, PutLe;
    PowersOf256();
    LePutLe(if i < 0 then i + 0x1_0000_0000_0000_0000 else i, 8);
    ElementDecodes(data, pos, 0x11, at, Int64(i), at + 8);
  }

  /** The types that show the same whatever bytes they have, and how many bytes that is. */
  lemma ConstantsShown(data: seq<Byte>, pos: nat, at: nat)
    ensures ElementAt(data, pos, 0x06, at) ==> Decodes(data, pos, Str(Ascii("undefined")), at)
    ensures ElementAt(data, pos, 0x13, at) && at + 16 <= |data| ==>
              Decodes(data, pos, Str(Ascii("<decimal128>")), at + 16)
    ensures ElementAt(data, pos, 0x7F, at) ==> Decodes(data, pos, Str(Ascii("<MinKey>")), at)
    ensures ElementAt(data, pos, 0xFF, at) ==> Decodes(data, pos, Str(Ascii("<MaxKey>")), at)
  {
    hide KeyEnd, Ascii;
    if ElementAt(data, pos, 0x06, at) {
      ElementDecodes(data, pos, 0x06, at, Str(Ascii("undefined")), at);
    }
    if ElementAt(data, pos, 0x13, at) && at + 16 <= |data| {
      ElementDecodes(data, pos, 0x13, at, Str(Ascii("<decimal128>")), at + 16);
    }
    if ElementAt(data, pos, 0x7F, at) {
      ElementDecodes(data, pos, 0x7F, at, Str(Ascii("<MinKey>")), at);
    }
    if ElementAt(data, pos, 0xFF, at) {
      ElementDecodes(data, pos, 0xFF, at, Str(Ascii("<MaxKey>")), at);
    }
  }

  /** Any byte but zero is true. */
  lemma BoolShown(data: seq<Byte>, pos: nat, at: nat)
    requires ElementAt(data, pos, 0x08, at) && at < |data|
    ensures Decodes(data, pos, Bool(data[at] > 0), at + 1)
  {
    hide KeyEnd;
    ElementDecodes(data, pos, 0x08, at, Bool(data[at] > 0), at + 1);
  }

  /** A value of fixed size that is cut short is no value and takes no bytes, as is one of an unknown type. */
  lemma CutShown(data: seq<Byte>, pos: nat, typ: Byte, at: nat)
    requires ElementAt(data, pos, typ, at)
    requires match typ
             case 0x08 => at == |data|
             case 0x10 => at + 4 > |data|
             case 0x07 => at + 12 > |data|
             case 0x13 => at + 16 > |data|
             case _ =>
               if typ in {0x01, 0x09, 0x11, 0x12} then at + 8 > |data|
               else typ == 0x00 || typ == 0x0A || typ == 0x0C || typ == 0x0E || 0x14 <= typ < 0x7F || 0x80 <= typ < 0xFF
    ensures Decodes(data, pos, Null, at)
  {
    hide KeyEnd, Ascii, DecodeDoc, ItemsFrom, Le32At, Digits;
    ElementDecodes(data, pos, typ, at, Null, at);
  }

  // In a document.

  /** The decoder comes to an element at a position. */
  ghost predicate Reached(data: seq<Byte>, docSize: nat, pos: nat, at: nat)
    requires docSize <= |data|
    ensures Reached(data, docSize, pos, at) ==> at < |data|
    decreases docSize - pos
  {
    pos + 1 < docSize && data[pos] != 0 &&
    (pos == at || (DecodeElement(data, pos).Some? && Reached(data, docSize, DecodeElement(data, pos).value.next, at)))
  }

  /** No element from a position on has a key. */
  ghost predicate Absent(data: seq<Byte>, docSize: nat, pos: nat, key: Text)
    requires docSize <= |data|
  {
    forall at :: Reached(data, docSize, pos, at) ==>
      DecodeElement(data, at).Some? ==> DecodeElement(data, at).value.key != key
  }

  lemma {:induction false} AbsentKept(data: seq<Byte>, docSize: nat, pos: nat, m: map<Text, Value>, key: Text)
    requires docSize <= |data| && Absent(data, docSize, pos, key) && key in m
    requires DecodeLoop(data, docSize, pos, m).Some?
    ensures key in DecodeLoop(data, docSize, pos, m).value && DecodeLoop(data, docSize, pos, m).value[key] == m[key]
    decreases docSize - pos
  {
    hide DecodeElement;
    if pos + 1 < docSize && data[pos] != 0 {
      var e := DecodeElement(data, pos).value;
      assert Reached(data, docSize, pos, pos);
      forall at | Reached(data, docSize, e.next, at)
        ensures Reached(data, docSize, pos, at)
      {
      }
      AbsentKept(data, docSize, e.next, if e.key != [] then m[e.key := e.val] else m, key);
    }
  }

  lemma {:induction false} ElementKept(data: seq<Byte>, docSize: nat, pos: nat, m: map<Text, Value>, at: nat)
    requires docSize <= |data| && Reached(data, docSize, pos, at) && DecodeLoop(data, docSize, pos, m).Some?
    requires DecodeElement(data, at).Some?
    requires var e := DecodeElement(data, at).value; e.key != [] && Absent(data, docSize, e.next, e.key)
    ensures var e, r := DecodeElement(data, at).value, DecodeLoop(data, docSize, pos, m).value;
            e.key in r && r[e.key] == e.val
    decreases docSize - pos
  {
    hide DecodeElement, Absent;
    var e := DecodeElement(data, pos).value;
    var m' := if e.key != [] then m[e.key := e.val] else m;
    if pos == at {
      AbsentKept(data, docSize, e.next, m', e.key);
    } else {
      ElementKept(data, docSize, e.next, m', at);
    }
  }

  /** The decoded document holds the value of every element whose key comes last. */
  lemma ValueInDocument(data: seq<Byte>, at: nat, val: Value, next: nat)
    requires |data| >= 5 && Reached(data, DocSize(data), 4, at) && DecodeDoc(data).Some?
    requires Decodes(data, at, val, next)
    requires var key := data[at + 1..KeyEnd(data, at + 1)]; key != [] && Absent(data, DocSize(data), next, key)
    ensures var key, doc := data[at + 1..KeyEnd(data, at + 1)], DecodeDoc(data).value.Entries();
            key in doc && doc[key] == val
  {
    hide DecodeElement, Absent, KeyEnd, Reached, DocSize;
    ElementKept(data, DocSize(data), 4, map[], at);
  }

  /** So a document shows the twelve bytes of an object identifier under its key. */
  lemma ObjectIdInDocument(data: seq<Byte>, pos: nat, at: nat)
    requires |data| >= 5 && Reached(data, DocSize(data), 4, pos) && DecodeDoc(data).Some?
    requires ElementAt(data, pos, 0x07, at) && at + 12 <= |data|
    requires var key := data[pos + 1..at - 1]; key != [] && Absent(data, DocSize(data), at + 12, key)
    ensures var key, doc := data[pos + 1..at - 1], DecodeDoc(data).value.Entries();
            key in doc && doc[key].Str? && IsObjectId(doc[key].s, data[at..at + 12])
  {
    hide IsObjectId, DecodeDoc, DecodeElement, KeyEnd, Reached, Absent, DocSize;
    var text := ObjectIdShown(data, pos, at);
    ValueInDocument(data, pos, Str(text), at + 12);
  }
}
