/**
 The look-ups by name, which skip values instead of decoding them, against the decoder
 (mongoport/mongo_protocol.go).
 */
module BsonLookup {
  import opened Wrappers
  import opened Bytes
  import opened Tree
  import opened Bson
  import opened BsonSkip
  import opened BsonCodec
  import opened Seqs

  /**
   From pos on the document is well laid out: elements of the types that both readers handle, whose
   keys and values lie in it, and a terminator.
   */
  ghost predicate Laid(data: seq<Byte>, docSize: nat, pos: nat)
    decreases |data| - pos
  {
    && pos < docSize <= |data|
    && (data[pos] != 0 ==> LaidElement(data, docSize, pos) && Laid(data, docSize, After(data, pos)))
  }

  ghost predicate LaidElement(data: seq<Byte>, docSize: nat, pos: nat)
    requires pos < docSize <= |data|
  {
    SharedType(data[pos]) && KeyEnd(data, pos + 1) < |data| && After(data, pos) < docSize
  }

  /** Where the skipper continues after the element at pos. */
  function After(data: seq<Byte>, pos: nat): (next: nat)
    requires pos < |data|
    ensures pos < next
  {
    var keyEnd := KeyEnd(data, pos + 1);
    SkipValue(data, keyEnd + 1, data[pos])
  }

  /** On a well laid element the decoder continues at the same place. */
  lemma SameNext(data: seq<Byte>, docSize: nat, pos: nat)
    requires pos < docSize <= |data| && LaidElement(data, docSize, pos) && DecodeElement(data, pos).Some?
    ensures var e := DecodeElement(data, pos).value;
            e.next == After(data, pos) && e.key == data[pos + 1..KeyEnd(data, pos + 1)]
  {
    hide SkipValue, DecodeValue, KeyEnd;
    SkipAgreesExactly(data, KeyEnd(data, pos + 1) + 1, data[pos]);
  }

  lemma FindStep(data: seq<Byte>, pos: nat, field: Text)
    requires pos + 1 < |data| && data[pos] != 0
    ensures FindsFrom(data, pos, field) <==>
              (data[pos + 1..KeyEnd(data, pos + 1)] == field && field != []) || FindsFrom(data, After(data, pos), field)
  {
    hide KeyEnd, SkipValue;
  }

  lemma LoopNext(data: seq<Byte>, docSize: nat, pos: nat, m: map<Text, Value>)
    requires pos + 1 < docSize <= |data| && data[pos] != 0
    ensures var e := DecodeElement(data, pos);
            DecodeLoop(data, docSize, pos, m) ==
              if e.None? then None
              else DecodeLoop(data, docSize, e.value.next, if e.value.key != [] then m[e.value.key := e.value.val] else m)
  {
    hide DecodeElement;
  }

  /** The search and the decoder's loop meet the same keys. */
  lemma {:induction false} LoopFinds(data: seq<Byte>, docSize: nat, pos: nat, m: map<Text, Value>, field: Text)
    requires Laid(data, docSize, pos) && field != []
    requires DecodeLoop(data, docSize, pos, m).Some?
    ensures field in DecodeLoop(data, docSize, pos, m).value <==> field in m || FindsFrom(data, pos, field)
    decreases |data| - pos
  {
    hide DecodeElement, LaidElement, After;
    if data[pos] != 0 {
      assert After(data, pos) < docSize by {
        ElementFits(data, docSize, pos);
      }
      LoopNext(data, docSize, pos, m);
      SameNext(data, docSize, pos);
      FindStep(data, pos, field);
      var e := DecodeElement(data, pos).value;
      LoopFinds(data, docSize, e.next, if e.key != [] then m[e.key := e.val] else m, field);
    }
  }

  lemma ElementFits(data: seq<Byte>, docSize: nat, pos: nat)
    requires pos < docSize <= |data| && LaidElement(data, docSize, pos)
    ensures After(data, pos) < docSize
  {
  }

  /**
   In every well laid document, whatever follows it, the search finds a name if and only if the
   name is a top-level key of the decoded map; the empty name it never finds.
   */
  lemma FindsKeys(data: seq<Byte>, field: Text)
    requires |data| >= 5 && Laid(data, DocSize(data), 4) && DecodeDoc(data).Some?
    ensures Finds(data, field) <==> field != [] && field in DecodeDoc(data).value.Entries()
  {
    hide DecodeLoop, Laid, SkipValue, KeyEnd;
    if field != [] {
      LoopFinds(data, DocSize(data), 4, map[], field);
    } else {
      NeverFindsEmpty(data, 4);
    }
  }

  lemma {:induction false} NeverFindsEmpty(data: seq<Byte>, pos: nat)
    ensures !FindsFrom(data, pos, [])
    decreases |data| - pos
  {
    hide KeyEnd, SkipValue;
    if pos + 1 < |data| && data[pos] != 0 {
      NeverFindsEmpty(data, SkipValue(data, KeyEnd(data, pos + 1) + 1, data[pos]));
    }
  }

  /** The name read as the command is a key of the decoded map, and the search finds it. */
  lemma FirstKeyIsKey(data: seq<Byte>)
    requires |data| >= 5 && Laid(data, DocSize(data), 4) && DecodeDoc(data).Some? && FirstKey(data) != []
    ensures FirstKey(data) in DecodeDoc(data).value.Entries() && Finds(data, FirstKey(data))
  {
    hide DecodeDoc, Laid, LaidElement, SkipValue, KeyEnd;
    LaidAtLeast(data);
    FindStep(data, 4, FirstKey(data));
    FindsKeys(data, FirstKey(data));
  }

  lemma LaidAtLeast(data: seq<Byte>)
    requires |data| >= 5 && FirstKey(data) != []
    ensures data[4] != 0 && 5 < |data|
  {
  }

  // Encoded documents are well laid.

  lemma {:induction false} SkipEncoded(o: Ordered, data: seq<Byte>, pos: nat)
    requires Encodable(o) && |EncodeValue(o)| < 0x1_0000_0000 && HasAt(data, pos, EncodeValue(o))
    ensures SkipValue(data, pos, TypeOf(o)) == pos + |EncodeValue(o)|
  {
    match o
    case OStr(s) =>
      HasParts(data, pos, PutLe(|s| + 1, 4), s + [0]);
      Le32Of(data, pos, |s| + 1);
    case ODoc(fields) =>
      SkipFrame(EncodeFields(fields), data, pos);
    case OArr(items) =>
      SkipFrame(EncodeItems(items, 0), data, pos);
    case _ =>
  }

  lemma SkipFrame(body: seq<Byte>, data: seq<Byte>, pos: nat)
    requires |body| + 5 < 0x1_0000_0000 && HasAt(data, pos, Framed(body))
    ensures pos + 4 <= |data| && Le32At(data, pos) == |Framed(body)|
  {
    HasParts(data, pos, PutLe(|body| + 5, 4), body + [0]);
    Le32Of(data, pos, |body| + 5);
  }

  lemma LaidEnd(data: seq<Byte>, docSize: nat, pos: nat)
    requires pos < docSize <= |data| && data[pos] == 0
    ensures Laid(data, docSize, pos)
  {
  }

  lemma LaidStep(data: seq<Byte>, docSize: nat, pos: nat, keyEnd: nat, next: nat)
    requires pos < docSize <= |data| && SharedType(data[pos]) && KeyEnd(data, pos + 1) == keyEnd < |data|
    requires SkipValue(data, keyEnd + 1, data[pos]) == next < docSize && Laid(data, docSize, next)
    ensures Laid(data, docSize, pos)
  {
    hide KeyEnd, SkipValue;
  }

  lemma {:induction false} FieldsLaid(fields: seq<Field>, data: seq<Byte>, docSize: nat, pos: nat)
    requires EncodableFields(fields) && |EncodeFields(fields)| < 0x1_0000_0000
    requires HasAt(data, pos, EncodeFields(fields) + [0])
    requires docSize == pos + |EncodeFields(fields)| + 1 <= |data|
    ensures Laid(data, docSize, pos)
    decreases |fields|
  {
    hide *;
    if fields == [] {
      FieldsNil(fields, map[]);
      HasLast(data, pos, EncodeFields(fields));
      LaidEnd(data, docSize, pos);
    } else {
      FieldsCons(fields, map[]);
      var f, rest := fields[0], fields[1..];
      var one := Tagged(TypeOf(f.val), f.key, EncodeValue(f.val));
      Assoc(one, EncodeFields(rest), [0]);
      HasParts(data, pos, one, EncodeFields(rest) + [0]);
      TaggedParts(data, pos, TypeOf(f.val), f.key, EncodeValue(f.val));
      SkipEncoded(f.val, data, pos + 2 + |f.key|);
      FieldsLaid(rest, data, docSize, pos + |one|);
      TypeIsShared(f.val);
      LaidStep(data, docSize, pos, pos + 1 + |f.key|, pos + |one|);
    }
  }

  lemma TypeIsShared(o: Ordered)
    ensures SharedType(TypeOf(o))
  {
  }

  lemma HasLast(data: seq<Byte>, pos: nat, body: seq<Byte>)
    requires HasAt(data, pos, body + [0])
    ensures pos + |body| < |data| && data[pos + |body|] == 0
  {
    HasParts(data, pos, body, [0]);
    HasOne(data, pos + |body|, 0);
  }

  lemma EncodedIsLaid(fields: seq<Field>, tail: seq<Byte>)
    requires Encodable(ODoc(fields)) && |EncodeDoc(fields)| < 0x1_0000_0000
    ensures var data := EncodeDoc(fields) + tail;
            |data| >= 5 && Laid(data, DocSize(data), 4)
  {
    hide Laid, EncodeFields, EncodableFields, PutLe, Le;
    var body := EncodeFields(fields);
    var data := EncodeDoc(fields) + tail;
    Assoc(PutLe(|body| + 5, 4), body + [0], tail);
    Assoc(body, [0], tail);
    assert data[0..|data|] == data;
    HasParts(data, 0, PutLe(|body| + 5, 4), (body + [0]) + tail);
    HasParts(data, 4, body + [0], tail);
    Le32Of(data, 0, |body| + 5);
    FieldsLaid(fields, data, |body| + 5, 4);
  }

  /** On an encoded document the search finds a non-empty name exactly when it is a top-level key. */
  lemma FindsDecodedKeys(fields: seq<Field>, tail: seq<Byte>, field: Text)
    requires Encodable(ODoc(fields)) && |EncodeDoc(fields)| < 0x1_0000_0000
    ensures var data := EncodeDoc(fields) + tail;
            && (Finds(data, field) <==> field != [] && exists f <- fields :: f.key == field)
            && DecodeDoc(data).Some?
            && (Finds(data, field) <==> field != [] && field in DecodeDoc(data).value.Entries())
  {
    hide Laid, DocSize, EncodeFields, Finds;
    FrameDecodes(fields, tail);
    EncodedIsLaid(fields, tail);
    EraseOntoKeys(map[], fields, field);
    FindsKeys(EncodeDoc(fields) + tail, field);
  }

  /** The first key of an encoded document is read as the command, and then found. */
  lemma FirstKeyIsFound(fields: seq<Field>, tail: seq<Byte>)
    requires Encodable(ODoc(fields)) && |EncodeDoc(fields)| < 0x1_0000_0000 && fields != []
    ensures FirstKey(EncodeDoc(fields) + tail) == fields[0].key
    ensures Finds(EncodeDoc(fields) + tail, FirstKey(EncodeDoc(fields) + tail))
  {
    hide *;
    NestedFacts(ODoc(fields));
    FieldsCons(fields, map[]);
    var f, rest := fields[0], fields[1..];
    var data := EncodeDoc(fields) + tail;
    var one := Tagged(TypeOf(f.val), f.key, EncodeValue(f.val));
    EncodedParts(fields, tail);
    Assoc(one, EncodeFields(rest), [0]);
    HasParts(data, 4, one, EncodeFields(rest) + [0]);
    TaggedParts(data, 4, TypeOf(f.val), f.key, EncodeValue(f.val));
    FirstKeyAt(data, f.key);
    FindsDecodedKeys(fields, tail, f.key);
    assert f in fields;
  }

  lemma EncodedParts(fields: seq<Field>, tail: seq<Byte>)
    requires Encodable(ODoc(fields))
    ensures HasAt(EncodeDoc(fields) + tail, 4, EncodeFields(fields) + [0])
  {
    var body := EncodeFields(fields);
    var data := EncodeDoc(fields) + tail;
    Assoc(PutLe(|body| + 5, 4), body + [0], tail);
    assert data[0..|data|] == data;
    HasParts(data, 0, PutLe(|body| + 5, 4), (body + [0]) + tail);
    HasParts(data, 4, body + [0], tail);
  }

  lemma FirstKeyAt(data: seq<Byte>, key: Text)
    requires |data| >= 5 && data[4] != 0 && data[5..KeyEnd(data, 5)] == key
    ensures FirstKey(data) == key
  {
  }
}
