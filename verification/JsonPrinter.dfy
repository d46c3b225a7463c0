/** Printing a decoded tree as one line of JSON (mongoport/mongo_protocol.go). */
module JsonPrinter {
  import opened Bytes
  import opened Decimal
  import opened Tree
  import opened Utf8
  import opened Json
  import opened Seqs

  type AsciiChar = x: int | 0 <= x < 0x80

  /** strconv.FormatFloat(., 'f', -1, 64) of the eight bytes of a double, and the text of a time. */
  datatype Formats = Formats(double: seq<Byte> -> seq<AsciiChar>, time: int -> Text)

  /** One code point of a string; below the space it becomes a \u escape of four hex digits. */
  function EscapeRune(c: Rune): Unicode
  {
    if c == QUOTE then [BACKSLASH, QUOTE]
    else if c == BACKSLASH then [BACKSLASH, BACKSLASH]
    else if c == 0x0A then [BACKSLASH, 'n' as int]
    else if c == 0x0D then [BACKSLASH, 'r' as int]
    else if c == 0x09 then [BACKSLASH, 't' as int]
    else if c < 0x20 then [BACKSLASH, 'u' as int, '0' as int, '0' as int, HexDigit(c / 16), HexDigit(c % 16)]
    else [c]
  }

  function Escape(s: Unicode): Unicode
  {
    if s == [] then [] else EscapeRune(s[0]) + Escape(s[1..])
  }

  /** Ranging over a string gives its code points. */
  function Quoted(s: Text): Unicode
  {
    [QUOTE] + (Escape(Runes(s)) + [QUOTE])
  }

  function Print(lib: Formats, o: Ordered): Unicode
    decreases o, 0
  {
    match o
    case ONull => Ascii("null")
    case OBool(b) => if b then Ascii("true") else Ascii("false")
    case OInt32(i) => FormatInt(i)
    case OInt64(i) => FormatInt(i)
    case OStr(s) => Quoted(s)
    case ODoc(fields) => [LBRACE] + (PrintFields(lib, fields) + [RBRACE])
    case OArr(items) => [LBRACKET] + (PrintItems(lib, items) + [RBRACKET])
    case ODouble(bits) => lib.double(bits)
    case OTime(ms) => Quoted(lib.time(ms))
  }

  function PrintFields(lib: Formats, fields: seq<Field>): Unicode
    decreases fields, 1
  {
    if fields == [] then []
    else
      var one := Quoted(fields[0].key) + ([COLON] + Print(lib, fields[0].val));
      if |fields| == 1 then one else one + ([COMMA] + PrintFields(lib, fields[1..]))
  }

  function PrintItems(lib: Formats, items: seq<Ordered>): Unicode
    decreases items, 1
  {
    if items == [] then []
    else if |items| == 1 then Print(lib, items[0])
    else Print(lib, items[0]) + ([COMMA] + PrintItems(lib, items[1..]))
  }

  /** strings.Builder, by the code points written. */
  class Builder {
    var contents: Unicode

    constructor ()
      ensures contents == []
    {
      contents := [];
    }

    method Write(s: Unicode)
      modifies this
      ensures contents == old(contents) + s
    {
      contents := contents + s;
    }

    method String() returns (s: Text)
      ensures s == Encode(contents)
    {
      s := Encode(contents);
    }
  }

  method JsonEscape(s: Text) returns (r: Unicode)
    ensures r == Escape(Runes(s))
  {
    hide First, EscapeRune;
    r := [];
    var i := 0;
    ghost var rest := s;
    while i < |s|
      invariant 0 <= i <= |s| && rest == s[i..]
      invariant r + Escape(Runes(rest)) == Escape(Runes(s))
    {
      assert s[i..] == rest;
      var (c, size) := First(s[i..]);
      EscapeNext(r, rest);
      var e := EscapedRune(c);
      r := r + e;
      rest := rest[size..];
      i := i + size;
    }
    assert r + [] == r;
  }

  lemma EscapeNext(done: Unicode, rest: Text)
    requires rest != []
    ensures var c := First(rest);
            done + Escape(Runes(rest)) == (done + EscapeRune(c.0)) + Escape(Runes(rest[c.1..]))
  {
    hide First, EscapeRune;
    var c := First(rest);
    assert Runes(rest)[1..] == Runes(rest[c.1..]);
    Assoc(done, EscapeRune(c.0), Escape(Runes(rest[c.1..])));
  }

  method EscapedRune(c: Rune) returns (r: Unicode)
    ensures r == EscapeRune(c)
  {
    if c == QUOTE {
      r := [BACKSLASH, QUOTE];
    } else if c == BACKSLASH {
      r := [BACKSLASH, BACKSLASH];
    } else if c == 0x0A {
      r := [BACKSLASH, 'n' as int];
    } else if c == 0x0D {
      r := [BACKSLASH, 'r' as int];
    } else if c == 0x09 {
      r := [BACKSLASH, 't' as int];
    } else if c < 0x20 {
      r := [BACKSLASH, 'u' as int, '0' as int, '0' as int, HexDigit(c / 16), HexDigit(c % 16)];
    } else {
      r := [c];
    }
  }

  /** No document lists a key twice. */
  ghost predicate NoRepeats(o: Ordered)
  {
    match o
    case ODoc(fields) =>
      DistinctKeys(fields) && forall i :: 0 <= i < |fields| ==> NoRepeats(fields[i].val)
    case OArr(items) => forall i :: 0 <= i < |items| ==> NoRepeats(items[i])
    case _ => true
  }

  /** A comma goes before every field but the first. */
  lemma {:induction false} PrintFieldsAppend(lib: Formats, fields: seq<Field>, f: Field)
    ensures PrintFields(lib, fields + [f]) ==
            PrintFields(lib, fields) +
            ((if fields == [] then [] else [COMMA]) + (Quoted(f.key) + ([COLON] + Print(lib, f.val))))
    decreases |fields|
  {
    hide Quoted, Print;
    if fields != [] {
      PrintFieldsAppend(lib, fields[1..], f);
      assert (fields + [f])[1..] == fields[1..] + [f];
    }
  }

  lemma {:induction false} PrintItemsAppend(lib: Formats, items: seq<Ordered>, o: Ordered)
    ensures PrintItems(lib, items + [o]) ==
            PrintItems(lib, items) + ((if items == [] then [] else [COMMA]) + Print(lib, o))
    decreases |items|
  {
    hide Print;
    if items != [] {
      PrintItemsAppend(lib, items[1..], o);
      assert (items + [o])[1..] == items[1..] + [o];
    }
  }

  lemma {:induction false} EraseOntoAppend(m: map<Text, Value>, fields: seq<Field>, f: Field)
    ensures EraseOnto(m, fields + [f]) == EraseOnto(m, fields)[f.key := Erase(f.val)]
    decreases |fields|
  {
    hide Erase;
    if fields != [] {
      EraseOntoAppend(m[fields[0].key := Erase(fields[0].val)], fields[1..], f);
      assert (fields + [f])[1..] == fields[1..] + [f];
    }
  }

  lemma {:induction false} EraseAllAppend(items: seq<Ordered>, o: Ordered)
    ensures EraseAll(items + [o]) == EraseAll(items) + [Erase(o)]
    decreases |items|
  {
    hide Erase;
    if items != [] {
      EraseAllAppend(items[1..], o);
      assert (items + [o])[1..] == items[1..] + [o];
    }
  }

  // One turn of the loop over a map.

  ghost predicate Visited(fields: seq<Field>, left: set<Text>)
  {
    DistinctKeys(fields) && forall i :: 0 <= i < |fields| ==> fields[i].key !in left && NoRepeats(fields[i].val)
  }

  lemma FieldWritten(lib: Formats, start: Unicode, fields: seq<Field>, f: Field)
    ensures fields == [] ==>
              start + PrintFields(lib, fields) + Quoted(f.key) + [COLON] + Print(lib, f.val)
              == start + PrintFields(lib, fields + [f])
    ensures fields != [] ==>
              start + PrintFields(lib, fields) + [COMMA] + Quoted(f.key) + [COLON] + Print(lib, f.val)
              == start + PrintFields(lib, fields + [f])
  {
    hide PrintFields, Quoted, Print;
    PrintFieldsAppend(lib, fields, f);
  }

  lemma KeyTaken(m: map<Text, Value>, left: set<Text>, k: Text, fields: seq<Field>, o: Ordered)
    requires left <= m.Keys && k in left && EraseOnto(map[], fields) == m - left
    requires Erase(o) == m[k] && NoRepeats(o) && Visited(fields, left)
    ensures left - {k} <= m.Keys
    ensures EraseOnto(map[], fields + [Field(k, o)]) == m - (left - {k})
    ensures Visited(fields + [Field(k, o)], left - {k})
  {
    hide EraseOnto, Erase, NoRepeats;
    EraseOntoAppend(map[], fields, Field(k, o));
  }

  lemma NothingTaken(lib: Formats, m: map<Text, Value>, start: Unicode)
    ensures m - m.Keys == map[] && EraseOnto(map[], []) == map[] && Visited([], m.Keys)
    ensures start + PrintFields(lib, []) == start
  {
    hide NoRepeats;
  }

  lemma AllTaken(m: map<Text, Value>, fields: seq<Field>)
    requires EraseOnto(map[], fields) == m - {} && Visited(fields, {})
    ensures EraseOnto(map[], fields) == m && NoRepeats(ODoc(fields))
  {
    hide EraseOnto;
    assert m - {} == m;
  }

  // One turn of the loop over an array.

  lemma ItemWritten(lib: Formats, start: Unicode, items: seq<Ordered>, o: Ordered)
    ensures items == [] ==> start + PrintItems(lib, items) + Print(lib, o) == start + PrintItems(lib, items + [o])
    ensures items != [] ==>
              start + PrintItems(lib, items) + [COMMA] + Print(lib, o) == start + PrintItems(lib, items + [o])
  {
    hide PrintItems, Print;
    PrintItemsAppend(lib, items, o);
  }

  ghost predicate Walked(os: seq<Ordered>, items: seq<Value>)
  {
    EraseAll(os) == items && forall j :: 0 <= j < |os| ==> NoRepeats(os[j])
  }

  lemma ItemWalked(os: seq<Ordered>, items: seq<Value>, i: nat, o: Ordered)
    requires i < |items| && Walked(os, items[..i]) && Erase(o) == items[i] && NoRepeats(o)
    ensures Walked(os + [o], items[..i + 1])
  {
    hide EraseAll, Erase, NoRepeats;
    EraseAllAppend(os, o);
  }

  lemma NothingWalked(lib: Formats, items: seq<Value>, start: Unicode)
    ensures Walked([], items[..0]) && start + PrintItems(lib, []) == start
  {
  }

  lemma AllWalked(os: seq<Ordered>, items: seq<Value>)
    requires Walked(os, items[..|items|])
    ensures EraseAll(os) == items && NoRepeats(OArr(os))
  {
    hide EraseAll;
    assert items[..|items|] == items;
  }

  /**
   Some walk of the tree is appended, whichever order the maps are ranged over; o is that walk,
   and it visits every key of every map exactly once.
   */
  method WriteJSONValue(lib: Formats, sb: Builder, v: Value) returns (ghost o: Ordered)
    modifies sb
    ensures Erase(o) == v && NoRepeats(o)
    ensures sb.contents == old(sb.contents) + Print(lib, o)
    decreases v, 1
  {
    hide Quoted, PrintFields, PrintItems, EraseOnto, EraseAll, DistinctKeys, Ascii, FormatInt;
    match v
    case Null =>
      sb.Write(Ascii("null"));
      o := ONull;
    case Bool(b) =>
      if b {
        sb.Write(Ascii("true"));
      } else {
        sb.Write(Ascii("false"));
      }
      o := OBool(b);
    case Int32(i) =>
      sb.Write(FormatInt(i));
      o := OInt32(i);
    case Int64(i) =>
      sb.Write(FormatInt(i));
      o := OInt64(i);
    case Str(s) =>
      WriteQuoted(sb, s);
      o := OStr(s);
    case Doc(m) =>
      ghost var fields := WriteMap(lib, sb, m, v);
      o := ODoc(fields);
    case Arr(items) =>
      ghost var os := WriteList(lib, sb, items, v);
      o := OArr(os);
    case Double(bits) =>
      sb.Write(lib.double(bits));
      o := ODouble(bits);
    case Time(ms) =>
      WriteQuoted(sb, lib.time(ms));
      o := OTime(ms);
  }

  method WriteQuoted(sb: Builder, s: Text)
    modifies sb
    ensures sb.contents == old(sb.contents) + Quoted(s)
  {
    hide Escape, Runes;
    ghost var start := sb.contents;
    sb.Write([QUOTE]);
    var e := JsonEscape(s);
    sb.Write(e);
    sb.Write([QUOTE]);
    Bracketed(start, [QUOTE], e, [QUOTE]);
  }

  lemma Bracketed(start: Unicode, open: Unicode, inner: Unicode, close: Unicode)
    ensures ((start + open) + inner) + close == start + (open + (inner + close))
  {
  }

  /** The loop over a map takes any key that is left. */
  method WriteMap(lib: Formats, sb: Builder, m: map<Text, Value>, ghost whole: Value) returns (ghost fields: seq<Field>)
    requires whole == Doc(m)
    modifies sb
    ensures EraseOnto(map[], fields) == m && NoRepeats(ODoc(fields))
    ensures sb.contents == old(sb.contents) + ([LBRACE] + (PrintFields(lib, fields) + [RBRACE]))
    decreases whole, 0
  {
    hide *;
    sb.Write([LBRACE]);
    ghost var start := sb.contents;
    var first := true;
    var left := m.Keys;
    fields := [];
    NothingTaken(lib, m, start);
    while left != {}
      invariant left <= m.Keys && (first <==> fields == [])
      invariant EraseOnto(map[], fields) == m - left && Visited(fields, left)
      invariant sb.contents == start + PrintFields(lib, fields)
    {
      var k :| k in left;
      if !first {
        sb.Write([COMMA]);
      }
      WriteQuoted(sb, k);
      sb.Write([COLON]);
      ghost var o := WriteJSONValue(lib, sb, m[k]);
      FieldWritten(lib, start, fields, Field(k, o));
      KeyTaken(m, left, k, fields, o);
      fields := fields + [Field(k, o)];
      left := left - {k};
      first := false;
    }
    sb.Write([RBRACE]);
    AllTaken(m, fields);
    Bracketed(old(sb.contents), [LBRACE], PrintFields(lib, fields), [RBRACE]);
  }

  method WriteList(lib: Formats, sb: Builder, items: seq<Value>, ghost whole: Value) returns (ghost os: seq<Ordered>)
    requires whole == Arr(items)
    modifies sb
    ensures EraseAll(os) == items && NoRepeats(OArr(os))
    ensures sb.contents == old(sb.contents) + ([LBRACKET] + (PrintItems(lib, os) + [RBRACKET]))
    decreases whole, 0
  {
    hide *;
    sb.Write([LBRACKET]);
    ghost var start := sb.contents;
    os := [];
    NothingWalked(lib, items, start);
    for i := 0 to |items|
      invariant |os| == i && Walked(os, items[..i])
      invariant sb.contents == start + PrintItems(lib, os)
    {
      if i > 0 {
        sb.Write([COMMA]);
      }
      ghost var o := WriteJSONValue(lib, sb, items[i]);
      ItemWritten(lib, start, os, o);
      ItemWalked(os, items, i, o);
      os := os + [o];
    }
    sb.Write([RBRACKET]);
    AllWalked(os, items);
    Bracketed(old(sb.contents), [LBRACKET], PrintItems(lib, os), [RBRACKET]);
  }
}
