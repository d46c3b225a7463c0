/**
 BSON decoding (mongoport/mongo_protocol.go): documents and elements in mutual recursion over
 slices.
 */
module Bson {
  import opened Wrappers
  import opened Bytes
  import opened Decimal
  import opened Tree

  /** A Go map that may be nil. */
  datatype GoMap = NilMap | MapOf(m: map<Text, Value>) {
    function Entries(): map<Text, Value>
    {
      if NilMap? then map[] else m
    }
  }

  datatype Element = Element(key: Text, val: Value, next: nat)

  /** The index of the first NUL at or after pos, or the length. */
  function KeyEnd(data: seq<Byte>, pos: nat): (end: nat)
    requires pos <= |data|
    ensures pos <= end <= |data|
    ensures forall i :: pos <= i < end ==> data[i] != 0
    ensures end < |data| ==> data[end] == 0
    decreases |data| - pos
  {
    if pos < |data| && data[pos] != 0 then KeyEnd(data, pos + 1) else pos
  }

  function Le32At(data: seq<Byte>, pos: nat): nat
    requires pos + 4 <= |data|
  {
    Le(data[pos..pos + 4])
  }

  /** The items an array map gives under the keys i, i + 1, ... up to the first missing one. */
  function ItemsFrom(m: map<Text, Value>, i: nat): seq<Value>
    decreases |m|
  {
    if Digits(i) in m then [m[Digits(i)]] + ItemsFrom(m - {Digits(i)}, i + 1) else []
  }

  /** The types that carry their length. */
  function DecodeSized(data: seq<Byte>, pos: nat, typ: Byte): (r: (Value, nat))
    requires pos <= |data|
    ensures pos <= r.1
  {
    if pos + (if typ == 0x05 then 5 else 4) > |data| then (Null, pos)
    else
      var length := Le32At(data, pos);
      if typ == 0x05 then
        var end := pos + 5 + length;
        (if end <= |data| then Str(Ascii("<binary ") + Digits(length) + Ascii(" bytes>")) else Null, end)
      else if typ == 0x0F then
        var end := pos + length;
        (if end <= |data| then Str(Ascii("<javascript with scope>")) else Null, end)
      else
        var end := pos + 4 + length;
        if end <= |data| && length > 1 then (Str(data[pos + 4..end - 1]), end)
        else if end <= |data| && typ == 0x02 then (Str([]), end)
        else (Null, end)
  }

  function ObjectId(id: seq<Byte>): Text {
    Ascii("ObjectId(\"") + Hex(id) + Ascii("\")")
  }

  function Regex(pattern: seq<Byte>, options: seq<Byte>): Text {
    Ascii("/") + pattern + Ascii("/") + options
  }

  /** The types of fixed size, some of it none; an unknown type has no value. */
  function DecodeFixed(data: seq<Byte>, pos: nat, typ: Byte): (r: (Value, nat))
    requires pos <= |data|
    ensures pos <= r.1
  {
    match typ
    case 0x01 => if pos + 8 <= |data| then (Double(data[pos..pos + 8]), pos + 8) else (Null, pos)
    case 0x06 => (Str(Ascii("undefined")), pos)
    case 0x07 => if pos + 12 <= |data| then (Str(ObjectId(data[pos..pos + 12])), pos + 12) else (Null, pos)
    case 0x08 => if pos < |data| then (Bool(data[pos] != 0), pos + 1) else (Null, pos)
    case 0x09 => if pos + 8 <= |data| then (Time(AsInt64(Le(data[pos..pos + 8]))), pos + 8) else (Null, pos)
    case 0x0A => (Null, pos)
    case 0x10 => if pos + 4 <= |data| then (Int32(AsInt32(Le32At(data, pos))), pos + 4) else (Null, pos)
    case 0x11 => if pos + 8 <= |data| then (Int64(AsInt64(Le(data[pos..pos + 8]))), pos + 8) else (Null, pos)
    case 0x12 => if pos + 8 <= |data| then (Int64(AsInt64(Le(data[pos..pos + 8]))), pos + 8) else (Null, pos)
    case 0x13 => if pos + 16 <= |data| then (Str(Ascii("<decimal128>")), pos + 16) else (Null, pos)
    case 0x7F => (Str(Ascii("<MinKey>")), pos)
    case 0xFF => (Str(Ascii("<MaxKey>")), pos)
    case _ => (Null, pos)
  }

  predicate Sized(typ: Byte)
  {
    typ in {0x02, 0x05, 0x0D, 0x0F}
  }

  /**
   The value of an element, with the position after it before clamping. None stands for a
   regular expression whose pattern has no terminator: there the source slices past the end,
   with an outcome that depends on the capacity behind the slice.
   */
  function DecodeValue(data: seq<Byte>, pos: nat, typ: Byte): (r: Option<(Value, nat)>)
    requires 0 < pos <= |data|
    ensures r.Some? ==> pos <= r.value.1
    decreases |data|, 0, 0
  {
    if Sized(typ) then Some(DecodeSized(data, pos, typ))
    else if typ == 0x03 || typ == 0x04 then
      if pos + 4 > |data| then Some((Null, pos))
      else
        var end := pos + Le32At(data, pos);
        if end > |data| then Some((Null, end))
        else
          var g :- DecodeDoc(data[pos..end]);
          Some((if typ == 0x03 then Doc(g.Entries()) else Arr(ItemsFrom(g.Entries(), 0)), end))
    else if typ == 0x0B then
      var patEnd := KeyEnd(data, pos);
      if patEnd == |data| then None
      else
        var optEnd := KeyEnd(data, patEnd + 1);
        Some((Str(Regex(data[pos..patEnd], data[patEnd + 1..optEnd])), optEnd + 1))
    else Some(DecodeFixed(data, pos, typ))
  }

  /** One element: it always advances, and never past the end of the buffer. */
  function DecodeElement(data: seq<Byte>, pos: nat): (r: Option<Element>)
    requires pos < |data|
    ensures r.Some? ==> pos < r.value.next <= |data|
    decreases |data|, 0, 1
  {
    var keyEnd := KeyEnd(data, pos + 1);
    if keyEnd == |data| then Some(Element([], Null, |data|))
    else
      var v :- DecodeValue(data, keyEnd + 1, data[pos]);
      Some(Element(data[pos + 1..keyEnd], v.0, if v.1 > |data| then |data| else v.1))
  }

  function DecodeLoop(data: seq<Byte>, docSize: nat, pos: nat, m: map<Text, Value>): (r: Option<map<Text, Value>>)
    requires docSize <= |data|
    decreases |data|, 1, docSize - pos
  {
    if pos + 1 >= docSize || data[pos] == 0 then Some(m)
    else
      var e :- DecodeElement(data, pos);
      var m' := if e.key != [] then m[e.key := e.val] else m;
      if e.next <= pos then Some(m') else DecodeLoop(data, docSize, e.next, m')
  }

  /** The size a document says it has, when that makes sense. */
  function DocSize(data: seq<Byte>): (n: nat)
    requires |data| >= 5
    ensures 5 <= n <= |data|
  {
    var n := Le32At(data, 0);
    if n < 5 || n > |data| then |data| else n
  }

  function DecodeDoc(data: seq<Byte>): (r: Option<GoMap>)
    ensures r.Some? ==> (r.value == NilMap <==> |data| < 5)
    decreases |data|, 2, 0
  {
    if |data| < 5 then Some(NilMap)
    else
      var m :- DecodeLoop(data, DocSize(data), 4, map[]);
      Some(MapOf(m))
  }
}
