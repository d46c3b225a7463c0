/**
 The second reader of BSON (mongoport/mongo_protocol.go): it skips values without decoding
 them, and must end where the decoder ends.
 */
module BsonSkip {
  import opened Bytes
  import opened Tree
  import opened Bson

  /** The position after a value, unclamped; unknown types are taken to have no bytes. */
  function SkipValue(data: seq<Byte>, pos: nat, typ: Byte): (next: nat)
    ensures pos <= next
  {
    if pos >= |data| then pos
    else match typ
      case 0x01 => pos + 8
      case 0x02 => if pos + 4 <= |data| then pos + 4 + Le32At(data, pos) else pos
      case 0x03 => if pos + 4 <= |data| then pos + Le32At(data, pos) else pos
      case 0x04 => if pos + 4 <= |data| then pos + Le32At(data, pos) else pos
      case 0x05 => if pos + 5 <= |data| then pos + 5 + Le32At(data, pos) else pos
      case 0x08 => pos + 1
      case 0x09 => pos + 8
      case 0x0A => pos
      case 0x10 => pos + 4
      case 0x12 => pos + 8
      case 0x13 => pos + 16
      case _ => pos
  }

  /** The types both readers handle. */
  predicate SharedType(typ: Byte)
  {
    typ in {0x01, 0x02, 0x03, 0x04, 0x05, 0x08, 0x09, 0x0A, 0x10, 0x12, 0x13}
  }

  function Clamp(n: nat, len: nat): nat
  {
    if n > len then len else n
  }

  /**
   On the shared types the skipper ends where the decoder ends exactly when it stays in the
   buffer, that is, when the value lies in it.
   */
  lemma SkipAgreesExactly(data: seq<Byte>, pos: nat, typ: Byte)
    requires 0 < pos <= |data| && SharedType(typ)
    requires DecodeValue(data, pos, typ).Some?
    ensures SkipValue(data, pos, typ) == Clamp(DecodeValue(data, pos, typ).value.1, |data|)
            <==> SkipValue(data, pos, typ) <= |data|
  {
  }

  /** The top-level search: some element before the terminator has this non-empty key. */
  function FindsFrom(data: seq<Byte>, pos: nat, field: Text): bool
    decreases |data| - pos
  {
    if pos + 1 >= |data| || data[pos] == 0x00 then false
    else
      var keyEnd := KeyEnd(data, pos + 1);
      (data[pos + 1..keyEnd] == field && field != [])
      || FindsFrom(data, SkipValue(data, keyEnd + 1, data[pos]), field)
  }

  function Finds(data: seq<Byte>, field: Text): bool
  {
    |data| >= 5 && FindsFrom(data, 4, field)
  }

  function FirstKey(data: seq<Byte>): Text
  {
    if |data| < 5 || data[4] == 0x00 then [] else data[5..KeyEnd(data, 5)]
  }
}
