/** From the bytes of a BSON document to the bytes of its JSON text (mongoport/mongo_protocol.go). */
module BsonJson {
  import opened Wrappers
  import opened Bytes
  import opened Tree
  import opened Utf8
  import opened Bson
  import opened BsonCodec
  import opened BsonReader
  import opened BsonTheorems
  import opened Json
  import opened JsonPrinter
  import opened JsonRoundTrip

  /**
   The empty text for a nil map. None stands for a regular expression without a terminator, as for
   the decoder.
   */
  method BsonToJSON(lib: Formats, data: seq<Byte>) returns (text: Option<Text>)
    ensures text.None? <==> DecodeDoc(data).None?
    ensures |data| < 5 ==> text == Some([])
    ensures text.Some? && |data| >= 5 ==> IsPrint(lib, DecodeDoc(data).value.m, text.value)
  {
    hide DecodeDoc, Print;
    ShortIsNil(data);
    var g := BsonToMap(data);
    match g
    case None =>
      return None;
    case Some(NilMap) =>
      return Some([]);
    case Some(MapOf(m)) =>
      var t := MapToJSON(lib, m);
      return Some(t);
  }

  lemma ShortIsNil(data: seq<Byte>)
    ensures |data| < 5 ==> DecodeDoc(data) == Some(NilMap)
  {
  }

  /**
   For the encoding of any document, whatever follows it, the text printed for it is JSON if and only
   if each of its doubles has a number as its text, and then reads as the document if different names
   have different code points.
   */
  lemma EncodedToJSON(lib: Formats, fields: seq<Field>, tail: seq<Byte>, m: map<Text, Value>, text: Text)
    requires Encodable(ODoc(fields)) && |EncodeDoc(fields)| < 0x1_0000_0000 && Formatted(lib)
    requires DecodeDoc(EncodeDoc(fields) + tail) == Some(MapOf(m)) && IsPrint(lib, m, text)
    ensures var doc := Erase(ODoc(fields));
            && (ReadText(Runes(text)).Some? <==> Plain(lib, doc))
            && (Sayable(lib, doc) ==> ReadText(Runes(text)) == Some(JsonOfValue(lib, doc)))
  {
    hide Encodable, EncodeDoc, DecodeDoc, Erase, IsPrint, Plain, Sayable, JsonOfValue, ReadText, Runes, Formatted;
    DecodeUndoesEncode(fields, tail);
    TextReadsBack(lib, m, text);
  }

  /** The double 0x7FF8000000000000. */
  const NAN: seq<Byte> := [0, 0, 0, 0, 0, 0, 0xF8, 0x7F]

  /** A document with one double that is not a number prints as text that is not JSON. */
  lemma NanIsNoJSON(lib: Formats, name: Text, text: Text)
    requires Formatted(lib) && lib.double(NAN) == Ascii("NaN")
    requires IsPrint(lib, map[name := Double(NAN)], text)
    ensures ReadText(Runes(text)).None?
  {
    hide IsPrint, ReadText, Runes, Formatted;
    TextReadsBack(lib, map[name := Double(NAN)], text);
    WordFails(lib.double(NAN), []);
    assert !IsNumber(lib.double(NAN));
    assert !Plain(lib, map[name := Double(NAN)][name]);
  }
}
