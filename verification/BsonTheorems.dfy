/** The round trip of BSON documents, and where decoding can stop (mongoport/mongo_protocol.go). */
module BsonTheorems {
  import opened Bytes
  import opened Tree
  import opened Bson
  import opened BsonSkip
  import opened BsonCodec

  /** Decoding undoes encoding, whatever follows the document. */
  lemma DecodeUndoesEncode(fields: seq<Field>, tail: seq<Byte>)
    requires Encodable(ODoc(fields)) && |EncodeDoc(fields)| < 0x1_0000_0000
    ensures var r := DecodeDoc(EncodeDoc(fields) + tail);
            r.Some? && r.value.MapOf? && Doc(r.value.m) == Erase(ODoc(fields))
  {
    FrameDecodes(fields, tail);
  }

  /** The bytes of a value whose size does not depend on its content. */
  function FixedSize(typ: Byte): nat
  {
    if typ in {0x01, 0x09, 0x11, 0x12} then 8
    else if typ == 0x07 then 12
    else if typ == 0x08 then 1
    else if typ == 0x10 then 4
    else if typ == 0x13 then 16
    else 0
  }

  /** Where a value ends, from its type and length alone. */
  function ValueEnd(data: seq<Byte>, pos: nat, typ: Byte): (end: nat)
    requires pos <= |data|
    ensures pos <= end
  {
    if typ in {0x02, 0x0D} then if pos + 4 <= |data| then pos + 4 + Le32At(data, pos) else pos
    else if typ in {0x03, 0x04, 0x0F} then if pos + 4 <= |data| then pos + Le32At(data, pos) else pos
    else if typ == 0x05 then if pos + 5 <= |data| then pos + 5 + Le32At(data, pos) else pos
    else if typ == 0x0B then
      var patEnd := KeyEnd(data, pos);
      if patEnd < |data| then KeyEnd(data, patEnd + 1) + 1 else |data|
    else if pos + FixedSize(typ) <= |data| then pos + FixedSize(typ)
    else pos
  }

  function NextElement(data: seq<Byte>, pos: nat): (next: nat)
    requires pos < |data|
    ensures pos < next <= |data|
  {
    var keyEnd := KeyEnd(data, pos + 1);
    if keyEnd == |data| then |data| else Clamp(ValueEnd(data, keyEnd + 1, data[pos]), |data|)
  }

  /** Every regular expression element of a document, at any depth, has its pattern's terminator. */
  ghost predicate PatternsEnd(data: seq<Byte>)
    decreases |data|, 2, 0
  {
    |data| >= 5 ==> PatternsEndFrom(data, DocSize(data), 4)
  }

  ghost predicate PatternsEndFrom(data: seq<Byte>, docSize: nat, pos: nat)
    requires docSize <= |data|
    decreases |data|, 1, docSize - pos
  {
    pos + 1 < docSize && data[pos] != 0 ==>
      PatternEnds(data, pos) && PatternsEndFrom(data, docSize, NextElement(data, pos))
  }

  ghost predicate PatternEnds(data: seq<Byte>, pos: nat)
    requires pos < |data|
    decreases |data|, 0
  {
    var at := KeyEnd(data, pos + 1) + 1;
    at <= |data| ==>
      && (data[pos] == 0x0B ==> KeyEnd(data, at) < |data|)
      && (data[pos] in {0x03, 0x04} && at + 4 <= |data| && at + Le32At(data, at) <= |data| ==>
            PatternsEnd(data[at..at + Le32At(data, at)]))
  }

  /** Decoding gives a value for every byte sequence but those with an unterminated pattern. */
  lemma {:induction false} DecodesExactly(data: seq<Byte>)
    ensures DecodeDoc(data).Some? <==> PatternsEnd(data)
    decreases |data|, 2, 0
  {
    if |data| >= 5 {
      LoopDecodesExactly(data, DocSize(data), 4, map[]);
    }
  }

  lemma {:induction false} LoopDecodesExactly(data: seq<Byte>, docSize: nat, pos: nat, m: map<Text, Value>)
    requires docSize <= |data|
    ensures DecodeLoop(data, docSize, pos, m).Some? <==> PatternsEndFrom(data, docSize, pos)
    decreases |data|, 1, docSize - pos
  {
    hide DecodeElement, PatternEnds, NextElement;
    if pos + 1 < docSize && data[pos] != 0 {
      ElementDecodesExactly(data, pos);
      var r := DecodeElement(data, pos);
      if r.Some? {
        var e := r.value;
        LoopDecodesExactly(data, docSize, e.next, if e.key != [] then m[e.key := e.val] else m);
      }
    }
  }

  lemma {:induction false} ElementDecodesExactly(data: seq<Byte>, pos: nat)
    requires pos < |data|
    ensures DecodeElement(data, pos).Some? <==> PatternEnds(data, pos)
    ensures DecodeElement(data, pos).Some? ==> DecodeElement(data, pos).value.next == NextElement(data, pos)
    decreases |data|, 0
  {
    hide DecodeDoc, PatternsEnd, Le32At, ItemsFrom, KeyEnd, DecodeValue, ValueEnd;
    var at := KeyEnd(data, pos + 1) + 1;
    if at <= |data| {
      if data[pos] in {0x03, 0x04} && at + 4 <= |data| && at + Le32At(data, at) <= |data| {
        DecodesExactly(data[at..at + Le32At(data, at)]);
      }
      ValueDecodesExactly(data, at, data[pos]);
    }
  }

  lemma ValueDecodesExactly(data: seq<Byte>, at: nat, typ: Byte)
    requires 0 < at <= |data|
    ensures DecodeValue(data, at, typ).Some? <==>
            && (typ == 0x0B ==> KeyEnd(data, at) < |data|)
            && (typ in {0x03, 0x04} && at + 4 <= |data| && at + Le32At(data, at) <= |data| ==>
                  DecodeDoc(data[at..at + Le32At(data, at)]).Some?)
    ensures DecodeValue(data, at, typ).Some? ==> DecodeValue(data, at, typ).value.1 == ValueEnd(data, at, typ)
  {
    hide DecodeDoc, Le32At, ItemsFrom, KeyEnd;
  }

  /** In particular nothing stops the decoder when no byte is the type of a regular expression. */
  lemma {:induction false} DecodesWithoutRegex(data: seq<Byte>)
    requires 0x0B !in data
    ensures DecodeDoc(data).Some?
    decreases |data|, 1, 0
  {
    if |data| >= 5 {
      EndsWithoutRegex(data, DocSize(data), 4);
    }
    DecodesExactly(data);
  }

  lemma {:induction false} EndsWithoutRegex(data: seq<Byte>, docSize: nat, pos: nat)
    requires 0x0B !in data && docSize <= |data|
    ensures PatternsEndFrom(data, docSize, pos)
    decreases |data|, 0, docSize - pos
  {
    hide NextElement, PatternsEnd, Le32At, KeyEnd;
    if pos + 1 < docSize && data[pos] != 0 {
      var at := KeyEnd(data, pos + 1) + 1;
      assert data[pos] in data;
      if data[pos] in {0x03, 0x04} && at + 4 <= |data| && at + Le32At(data, at) <= |data| {
        var inner := data[at..at + Le32At(data, at)];
        DecodesWithoutRegex(inner);
        DecodesExactly(inner);
      }
      EndsWithoutRegex(data, docSize, NextElement(data, pos));
    }
  }

  /** A document that ends inside the pattern of a regular expression. */
  const OPEN_PATTERN: seq<Byte> := [7, 0, 0, 0, 0x0B, 0, 1]

  lemma OpenPatternStops()
    ensures DecodeDoc(OPEN_PATTERN).None?
  {
    DecodesExactly(OPEN_PATTERN);
  }
}
