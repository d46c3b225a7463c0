/** A reader over a finished byte stream, and how the protocol readers on top of it return. */
module ByteReader {
  import opened Bytes

  /** A value or an error, each with the bytes still unread, or a panic. */
  datatype Got<+T> = Got(value: T, rest: seq<Byte>) | Err(rest: seq<Byte>) | Panic

  /** Ok comes with a value, Failed is an error return, Crashed a panic. */
  datatype Status = Ok | Failed | Crashed

  ghost function StatusOf<T>(r: Got<T>): Status {
    match r
    case Got(_, _) => Ok
    case Err(_) => Failed
    case Panic => Crashed
  }

  const LF: Byte := 10

  /** Where the first line feed is. */
  function Newline(s: seq<Byte>): (n: nat)
    ensures n <= |s| && LF !in s[..n] && (n < |s| ==> s[n] == LF)
  {
    if s == [] || s[0] == LF then 0 else 1 + Newline(s[1..])
  }

  class Reader {
    var rest: seq<Byte>

    constructor (stream: seq<Byte>)
      ensures rest == stream
    {
      rest := stream;
    }

    /** Up to and with the first line feed; without one everything is consumed. */
    method ReadString() returns (ok: bool, line: seq<Byte>)
      modifies this
      ensures ok == (LF in old(rest))
      ensures ok ==> line == old(rest)[..Newline(old(rest)) + 1] && rest == old(rest)[Newline(old(rest)) + 1..]
      ensures !ok ==> line == old(rest) && rest == []
    {
      var n := Newline(rest);
      ok := n < |rest|;
      if ok {
        line, rest := rest[..n + 1], rest[n + 1..];
      } else {
        line, rest := rest, [];
      }
    }

    /** io.ReadFull: all n bytes, or what there is and an error. */
    method ReadFull(n: nat) returns (ok: bool, buf: seq<Byte>)
      modifies this
      ensures ok == (n <= |old(rest)|)
      ensures ok ==> buf == old(rest)[..n] && rest == old(rest)[n..]
      ensures !ok ==> buf == old(rest) && rest == []
    {
      if n <= |rest| {
        ok, buf, rest := true, rest[..n], rest[n..];
      } else {
        ok, buf, rest := false, rest, [];
      }
    }

    /** The return e, v is what r says, and so is what is left after it. */
    ghost predicate Shows<T>(e: Status, v: T, r: Got<T>)
      reads this
    {
      && e == StatusOf(r)
      && (r.Got? ==> v == r.value && rest == r.rest)
      && (r.Err? ==> rest == r.rest)
    }
  }
}
