/** Reading one WebSocket frame (websocketport/websocket_protocol.go), sections 5.2 and 5.3 of RFC 6455. */
module WebSocket {
  import opened Wrappers
  import opened Bytes
  import opened Seqs
  import opened ByteReader

  const OP_TEXT: int := 1
  const MAX_PAYLOAD: int := 65536
  const SHOWN: int := 200

  /** The parts of a message that depend on the frame; text is the payload of a text frame as shown. */
  datatype Message = Message(fin: bool, opcode: int, payloadLen: int, text: seq<Byte>)

  predicate ValidOpcode(op: int) {
    0 <= op <= 2 || 8 <= op <= 10
  }

  /** Exclusive or of the low n bits. */
  function XorBits(a: nat, b: nat, n: nat): (r: nat) {
    if n == 0 then 0 else (a % 2 + b % 2) % 2 + 2 * XorBits(a / 2, b / 2, n - 1)
  }

  function Pow2(n: nat): nat {
    if n == 0 then 1 else 2 * Pow2(n - 1)
  }

  lemma {:induction false} XorBitsFit(a: nat, b: nat, n: nat)
    ensures XorBits(a, b, n) < Pow2(n)
  {
    if n > 0 {
      XorBitsFit(a / 2, b / 2, n - 1);
    }
  }

  function Xor(a: Byte, b: Byte): Byte {
    XorBitsFit(a, b, 8);
    assert Pow2(8) == 256;
    XorBits(a, b, 8)
  }

  function Masked(p: seq<Byte>, key: seq<Byte>): (r: seq<Byte>)
    requires |key| == 4
    ensures |r| == |p|
  {
    seq(|p|, i requires 0 <= i < |p| => Xor(p[i], key[i % 4]))
  }

  lemma {:induction false} XorBitsTwice(a: nat, b: nat, n: nat)
    requires a < Pow2(n)
    ensures XorBits(XorBits(a, b, n), b, n) == a
  {
    hide *;
    if n == 0 {
      NoBits(a, b);
    } else {
      var c, rest := (a % 2 + b % 2) % 2, XorBits(a / 2, b / 2, n - 1);
      XorUnfold(a, b, n);
      LowBit(c, rest);
      XorUnfold(c + 2 * rest, b, n);
      Halves(a, n);
      XorBitsTwice(a / 2, b / 2, n - 1);
      Parity(a % 2, b % 2);
    }
  }

  lemma NoBits(a: nat, b: nat)
    requires a < Pow2(0)
    ensures XorBits(XorBits(a, b, 0), b, 0) == a
  {
  }

  lemma XorUnfold(a: nat, b: nat, n: nat)
    requires n > 0
    ensures XorBits(a, b, n) == (a % 2 + b % 2) % 2 + 2 * XorBits(a / 2, b / 2, n - 1)
  {
  }

  lemma LowBit(c: nat, rest: nat)
    requires c < 2
    ensures (c + 2 * rest) % 2 == c && (c + 2 * rest) / 2 == rest
  {
  }

  lemma Halves(a: nat, n: nat)
    requires n > 0 && a < Pow2(n)
    ensures a / 2 < Pow2(n - 1) && a % 2 + 2 * (a / 2) == a
  {
  }

  lemma Parity(x: nat, y: nat)
    requires x < 2 && y < 2
    ensures ((x + y) % 2 + y) % 2 == x
  {
  }

  lemma XorTwice(a: Byte, b: Byte)
    ensures Xor(Xor(a, b), b) == a
  {
    hide XorBits;
    assert Pow2(8) == 256;
    XorBitsTwice(a, b, 8);
  }

  lemma MaskTwice(p: seq<Byte>, key: seq<Byte>)
    requires |key| == 4
    ensures Masked(Masked(p, key), key) == p
  {
    hide Xor;
    forall i | 0 <= i < |p|
      ensures Masked(Masked(p, key), key)[i] == p[i]
    {
      XorTwice(p[i], key[i % 4]);
    }
  }

  // What exclusive or is, bit by bit.

  /** Bit i of a number. */
  predicate Bit(x: nat, i: nat) {
    if i == 0 then x % 2 == 1 else Bit(x / 2, i - 1)
  }

  lemma {:induction false} XorBitsAt(a: nat, b: nat, n: nat, i: nat)
    requires i < n
    ensures Bit(XorBits(a, b, n), i) <==> Bit(a, i) != Bit(b, i)
    decreases n
  {
    hide XorBits;
    var c, rest := (a % 2 + b % 2) % 2, XorBits(a / 2, b / 2, n - 1);
    XorUnfold(a, b, n);
    LowBit(c, rest);
    if i > 0 {
      XorBitsAt(a / 2, b / 2, n - 1, i - 1);
    }
  }

  /** A bit is set exactly where the two octets differ. */
  lemma XorDiffers(a: Byte, b: Byte)
    ensures forall i :: 0 <= i < 8 ==> (Bit(Xor(a, b), i) <==> Bit(a, i) != Bit(b, i))
  {
    hide XorBits, Bit;
    forall i | 0 <= i < 8
      ensures Bit(Xor(a, b), i) <==> Bit(a, i) != Bit(b, i)
    {
      XorBitsAt(a, b, 8, i);
    }
  }

  // What a sender does, section 5.3.

  /** The value of the lowest n bits in which two octets differ. */
  function Differing(a: nat, b: nat, n: nat): nat {
    if n == 0 then 0
    else Differing(a, b, n - 1) + (if Bit(a, n - 1) != Bit(b, n - 1) then Pow2(n - 1) else 0)
  }

  lemma {:induction false} DifferingHalves(a: nat, b: nat, n: nat)
    requires n > 0
    ensures Differing(a, b, n) == (a % 2 + b % 2) % 2 + 2 * Differing(a / 2, b / 2, n - 1)
    decreases n
  {
    if n > 1 {
      DifferingHalves(a, b, n - 1);
    }
  }

  lemma {:induction false} DifferingIsXor(a: nat, b: nat, n: nat)
    ensures Differing(a, b, n) == XorBits(a, b, n)
    decreases n
  {
    hide Differing;
    if n > 0 {
      DifferingHalves(a, b, n);
      DifferingIsXor(a / 2, b / 2, n - 1);
    } else {
      NoDifference(a, b);
    }
  }

  lemma NoDifference(a: nat, b: nat)
    ensures Differing(a, b, 0) == 0
  {
  }

  /** Octet i of what is sent differs from octet i of the payload in the bits of octet i mod 4 of the key. */
  function Sent(payload: seq<Byte>, key: seq<Byte>): (wire: seq<Byte>)
    requires |key| == 4
    ensures |wire| == |payload|
  {
    seq(|payload|, i requires 0 <= i < |payload| => SentOctet(payload[i], key[i % 4]))
  }

  function SentOctet(p: Byte, k: Byte): Byte {
    DifferingIsXor(p, k, 8);
    XorBitsFit(p, k, 8);
    assert Pow2(8) == 256;
    Differing(p, k, 8)
  }

  /** Unmasking gives back what the sender masked. */
  lemma UnmaskSent(payload: seq<Byte>, key: seq<Byte>)
    requires |key| == 4
    ensures Masked(Sent(payload, key), key) == payload
  {
    hide XorBits, Differing;
    forall i | 0 <= i < |payload|
      ensures Masked(Sent(payload, key), key)[i] == payload[i]
    {
      DifferingIsXor(payload[i], key[i % 4], 8);
      XorTwice(payload[i], key[i % 4]);
    }
  }

  function TextOf(opcode: int, payload: seq<Byte>): seq<Byte> {
    if opcode != OP_TEXT then []
    else if |payload| > SHOWN then payload[..SHOWN] + Ascii("...")
    else payload
  }

  /** The payload length and how many bytes it takes after the first two. */
  function LengthBytes(b1: Byte): nat {
    if b1 % 128 == 126 then 2 else if b1 % 128 == 127 then 8 else 0
  }

  function PayloadLength(b1: Byte, ext: seq<Byte>): nat {
    if b1 % 128 >= 126 then Be(ext) else b1 % 128
  }

  /** Reserved bits are ignored; a masked frame has its key behind the length. */
  function ReadFrame(s: seq<Byte>): (r: Got<Message>)
    ensures r.Got? ==> |r.rest| < |s| && ValidOpcode(r.value.opcode) && 0 <= r.value.payloadLen <= MAX_PAYLOAD
  {
    if |s| < 2 then Err([])
    else
      var b0, b1 := s[0], s[1];
      var extEnd := 2 + LengthBytes(b1);
      if !ValidOpcode(b0 % 16) then Err(s[2..])
      else if extEnd > |s| then Err([])
      else
        var n := PayloadLength(b1, s[2..extEnd]);
        if b1 < 128 then ReadPayload(s[extEnd..], b0, None, n)
        else if extEnd + 4 > |s| then Err([])
        else ReadPayload(s[extEnd + 4..], b0, Some(s[extEnd..extEnd + 4]), n)
  }

  /** A length whose top bit is set is negative: it passes the size check and panics. */
  function ReadPayload(s: seq<Byte>, b0: Byte, key: Option<seq<Byte>>, n: nat): (r: Got<Message>)
    requires key.Some? ==> |key.value| == 4
    ensures r.Got? ==> |r.rest| <= |s| && r.value.opcode == b0 % 16 && 0 <= r.value.payloadLen <= MAX_PAYLOAD
  {
    if n > 0x7FFF_FFFF_FFFF_FFFF then Panic
    else if n > MAX_PAYLOAD then Err(s)
    else if n > |s| then Err([])
    else
      var payload := if key.Some? then Masked(s[..n], key.value) else s[..n];
      Got(Message(b0 >= 128, b0 % 16, n, TextOf(b0 % 16, payload)), s[n..])
  }

  method Unmask(payload: array<Byte>, key: seq<Byte>)
    requires |key| == 4
    modifies payload
    ensures payload[..] == Masked(old(payload[..]), key)
  {
    hide Xor;
    for i := 0 to payload.Length
      invariant forall k :: 0 <= k < i ==> payload[k] == Xor(old(payload[k]), key[k % 4])
      invariant forall k :: i <= k < payload.Length ==> payload[k] == old(payload[k])
    {
      payload[i] := Xor(payload[i], key[i % 4]);
    }
  }

  method ReadPayloadLength(r: Reader, b1: Byte) returns (ok: bool, payloadLen: int)
    modifies r
    ensures ok == (LengthBytes(b1) <= |old(r.rest)|)
    ensures ok ==> r.rest == old(r.rest)[LengthBytes(b1)..]
    ensures ok ==> payloadLen == AsInt64(PayloadLength(b1, old(r.rest)[..LengthBytes(b1)]))
    ensures !ok ==> r.rest == []
  {
    hide Be;
    PowersOf256();
    var ext: seq<Byte>;
    var payloadLen7 := b1 % 128;
    ok, payloadLen := true, payloadLen7;
    if payloadLen7 == 126 {
      ok, ext := r.ReadFull(2);
      if ok {
        BeBound(ext);
        payloadLen := Be(ext);
      }
    } else if payloadLen7 == 127 {
      ok, ext := r.ReadFull(8);
      if ok {
        payloadLen := AsInt64(Be(ext));
      }
    }
  }

  method ReadWebSocketMessage(r: Reader) returns (e: Status, msg: Message)
    modifies r
    ensures r.Shows(e, msg, ReadFrame(old(r.rest)))
  {
    hide Be, LengthBytes, PayloadLength, ReadPayload;
    msg := Message(false, 0, 0, []);
    ghost var s := r.rest;
    var ok, header := r.ReadFull(2);
    if !ok {
      return Failed, msg;
    }
    var b0, b1 := header[0], header[1];
    var opcode := b0 % 16;
    var masked := b1 >= 128;
    if opcode > 10 || 2 < opcode < 8 {
      return Failed, msg;
    }
    var payloadLen: int;
    ok, payloadLen := ReadPayloadLength(r, b1);
    if !ok {
      return Failed, msg;
    }
    ghost var extEnd := 2 + LengthBytes(b1);
    SliceTwice(s, 2, LengthBytes(b1));
    var key: Option<seq<Byte>> := None;
    if masked {
      var maskKey: seq<Byte>;
      ok, maskKey := r.ReadFull(4);
      if !ok {
        return Failed, msg;
      }
      SliceTwice(s, extEnd, 4);
      key := Some(maskKey);
    }
    LengthBelowZero(b1, s[2..extEnd]);
    e, msg := ReadBody(r, b0, key, payloadLen, PayloadLength(b1, s[2..extEnd]));
  }

  /** From the size check on; n is the length before it became a signed number. */
  method ReadBody(r: Reader, b0: Byte, key: Option<seq<Byte>>, payloadLen: int, ghost n: nat)
    returns (e: Status, msg: Message)
    requires key.Some? ==> |key.value| == 4
    requires n < 0x1_0000_0000_0000_0000 && payloadLen == AsInt64(n)
    modifies r
    ensures r.Shows(e, msg, ReadPayload(old(r.rest), b0, key, n))
  {
    hide Masked, TextOf, Ascii;
    msg := Message(false, 0, 0, []);
    if payloadLen > MAX_PAYLOAD {
      return Failed, msg;
    }
    if payloadLen < 0 {
      return Crashed, msg;
    }
    var ok, chunk := r.ReadFull(payloadLen);
    if !ok {
      return Failed, msg;
    }
    var payload := new Byte[payloadLen](i requires 0 <= i < |chunk| => chunk[i]);
    assert payload[..] == chunk;
    if key.Some? {
      Unmask(payload, key.value);
    }
    var opcode := b0 % 16;
    var text: seq<Byte> := [];
    if opcode == OP_TEXT {
      text := payload[..];
      if |text| > SHOWN {
        text := text[..SHOWN] + Ascii("...");
      }
    }
    TextParts(opcode, payload[..]);
    msg := Message(b0 >= 128, opcode, payloadLen, text);
    e := Ok;
  }

  /** What a reader at i hands out and what is left after it. */
  lemma SliceTwice(s: seq<Byte>, i: nat, n: nat)
    requires i + n <= |s|
    ensures s[i..][..n] == s[i..i + n] && s[i..][n..] == s[i + n..]
  {
  }

  lemma TextParts(opcode: int, payload: seq<Byte>)
    ensures opcode != OP_TEXT ==> TextOf(opcode, payload) == []
    ensures opcode == OP_TEXT && |payload| <= SHOWN ==> TextOf(opcode, payload) == payload
    ensures opcode == OP_TEXT && |payload| > SHOWN ==> TextOf(opcode, payload) == payload[..SHOWN] + Ascii("...")
  {
  }

  lemma LengthBelowZero(b1: Byte, ext: seq<Byte>)
    requires |ext| == LengthBytes(b1)
    ensures PayloadLength(b1, ext) < 0x1_0000_0000_0000_0000
  {
    BeBound(ext);
    PowersOf256();
  }

  // Frames on the wire.

  datatype Form = Short | Medium | Long

  datatype Frame = Frame(fin: bool, rsv: nat, opcode: int, form: Form, key: Option<seq<Byte>>, payload: seq<Byte>)

  ghost predicate Sendable(f: Frame) {
    && f.rsv < 8 && f.opcode in {0, 1, 2, 8, 9, 10}
    && (f.form.Short? ==> |f.payload| <= 125)
    && (f.form.Medium? ==> |f.payload| < 0x1_0000)
    && |f.payload| <= MAX_PAYLOAD
    && (f.key.Some? ==> |f.key.value| == 4)
  }

  /** The two first bytes and the extended length, for any length that the form can carry. */
  function FrameHead(f: Frame, n: nat): (h: seq<Byte>)
    requires f.rsv < 8 && 0 <= f.opcode < 16
    requires f.form.Short? ==> n <= 125
  {
    var mask := if f.key.Some? then 128 else 0;
    var b0 := (if f.fin then 128 else 0) + 16 * f.rsv + f.opcode;
    match f.form
    case Short => [b0, mask + n]
    case Medium => [b0, mask + 126] + PutBe(n, 2)
    case Long => [b0, mask + 127] + PutBe(n, 8)
  }

  ghost function EncodeFrame(f: Frame): seq<Byte>
    requires Sendable(f)
  {
    FrameHead(f, |f.payload|) +
    (if f.key.Some? then f.key.value + Sent(f.payload, f.key.value) else f.payload)
  }

  /** What a frame should be reported as. */
  function Reported(f: Frame): Message {
    Message(f.fin, f.opcode, |f.payload|, TextOf(f.opcode, f.payload))
  }

  lemma HeadReads(f: Frame, n: nat, more: seq<Byte>)
    requires f.rsv < 8 && ValidOpcode(f.opcode)
    requires f.form.Short? ==> n <= 125
    requires f.form.Medium? ==> n < 0x1_0000
    requires f.form.Long? ==> n < 0x1_0000_0000_0000_0000
    ensures var s, h := FrameHead(f, n) + more, FrameHead(f, n);
            && 2 <= |h| && s[0] % 16 == f.opcode && (s[0] >= 128 <==> f.fin) && (s[1] >= 128 <==> f.key.Some?)
            && |h| == 2 + LengthBytes(s[1]) && PayloadLength(s[1], s[2..|h|]) == n
            && s[|h|..] == more
  {
    hide Be, PutBe, Pow256;
    var s, h := FrameHead(f, n) + more, FrameHead(f, n);
    PowersOf256();
    if f.form.Medium? {
      BePutBe(n, 2);
      assert s[2..4] == PutBe(n, 2);
    } else if f.form.Long? {
      BePutBe(n, 8);
      assert s[2..10] == PutBe(n, 8);
    }
  }

  /** Past the header a read continues with the payload. */
  lemma HeadThenPayload(s: seq<Byte>, h: nat, key: Option<seq<Byte>>, more: seq<Byte>)
    requires 2 <= h <= |s| && ValidOpcode(s[0] % 16) && h == 2 + LengthBytes(s[1])
    requires (s[1] >= 128 <==> key.Some?) && (key.Some? ==> |key.value| == 4)
    requires s[h..] == if key.Some? then key.value + more else more
    ensures ReadFrame(s) == ReadPayload(more, s[0], key, PayloadLength(s[1], s[2..h]))
  {
    hide Be, ReadPayload, PayloadLength, LengthBytes;
    if key.Some? {
      SliceTwice(s, h, 4);
      assert s[h..][..4] == key.value && s[h..][4..] == more;
    }
  }

  /** Masked or not, in any length form, a frame is read back and nothing behind it is touched. */
  lemma FrameReads(f: Frame, tail: seq<Byte>)
    requires Sendable(f)
    ensures ReadFrame(EncodeFrame(f) + tail) == Got(Reported(f), tail)
  {
    hide Be, Xor, Masked, Sent, TextOf, PayloadLength, LengthBytes, FrameHead, ReadFrame;
    var h := FrameHead(f, |f.payload|);
    var raw := if f.key.Some? then Sent(f.payload, f.key.value) else f.payload;
    var body := if f.key.Some? then f.key.value + raw else raw;
    Assoc(h, body, tail);
    HeadReads(f, |f.payload|, body + tail);
    if f.key.Some? {
      Assoc(f.key.value, raw, tail);
      UnmaskSent(f.payload, f.key.value);
    }
    HeadThenPayload(h + (body + tail), |h|, f.key, raw + tail);
    assert (raw + tail)[..|raw|] == raw && (raw + tail)[|raw|..] == tail;
  }

  /** Texts of up to 200 bytes are recovered whole, longer ones to 200 bytes and three dots. */
  lemma TextRecovered(f: Frame, tail: seq<Byte>)
    requires Sendable(f) && f.opcode == OP_TEXT
    ensures var r := ReadFrame(EncodeFrame(f) + tail);
            && r.Got?
            && var m := r.value;
            if |f.payload| <= SHOWN then m.text == f.payload
            else |m.text| == SHOWN + 3 && m.text[..SHOWN] == f.payload[..SHOWN] && m.text[SHOWN..] == Ascii("...")
  {
    hide EncodeFrame, ReadFrame;
    FrameReads(f, tail);
  }

  /** What a long form may announce: too much is an error, with the top bit set a panic. */
  lemma LongForm(f: Frame, n: nat, key: seq<Byte>, tail: seq<Byte>)
    requires f.form.Long? && f.rsv < 8 && ValidOpcode(f.opcode)
    requires MAX_PAYLOAD < n < 0x1_0000_0000_0000_0000
    requires |key| == if f.key.Some? then 4 else 0
    ensures ReadFrame(FrameHead(f, n) + (key + tail)) ==
            if n < 0x8000_0000_0000_0000 then Err(tail) else Panic
  {
    hide Be, PayloadLength, LengthBytes, FrameHead, ReadFrame;
    HeadReads(f, n, key + tail);
    var s, h := FrameHead(f, n) + (key + tail), FrameHead(f, n);
    if f.key.None? {
      EmptyLeft(key, tail);
    }
    HeadThenPayload(s, |h|, if f.key.Some? then Some(key) else None, tail);
  }

  /** Only a complete header in the long form can make a read panic, and does if and only if its length is negative. */
  lemma FramePanicsExactly(s: seq<Byte>)
    ensures ReadFrame(s).Panic? <==>
            && |s| >= 10 && s[0] % 16 in {0, 1, 2, 8, 9, 10} && s[1] % 128 == 127
            && (s[1] >= 128 ==> |s| >= 14)
            && Be(s[2..10]) > 0x7FFF_FFFF_FFFF_FFFF
  {
    hide Be, Masked, TextOf;
    PowersOf256();
    if |s| >= 2 && 2 + LengthBytes(s[1]) <= |s| {
      BeBound(s[2..2 + LengthBytes(s[1])]);
    }
  }

  /** The opcodes that section 5.2 reserves are refused after two bytes. */
  lemma ReservedOpcodeFails(s: seq<Byte>)
    requires |s| >= 2 && s[0] % 16 in {3, 4, 5, 6, 7, 11, 12, 13, 14, 15}
    ensures ReadFrame(s) == Err(s[2..])
  {
  }

  /** Messages one after the other, until the stream ends or cannot be read on. */
  function ReadFrames(s: seq<Byte>): seq<Message>
    decreases |s|
  {
    match ReadFrame(s)
    case Got(m, rest) => [m] + ReadFrames(rest)
    case _ => []
  }

  ghost function EncodeFrames(fs: seq<Frame>): seq<Byte>
    requires forall i :: 0 <= i < |fs| ==> Sendable(fs[i])
  {
    if fs == [] then [] else EncodeFrame(fs[0]) + EncodeFrames(fs[1..])
  }

  lemma {:induction false} FramesRead(fs: seq<Frame>)
    requires forall i :: 0 <= i < |fs| ==> Sendable(fs[i])
    ensures ReadFrames(EncodeFrames(fs)) == seq(|fs|, i requires 0 <= i < |fs| => Reported(fs[i]))
    decreases |fs|
  {
    hide ReadFrame, EncodeFrame, Sendable, Reported;
    if fs == [] {
      NothingReads();
    } else {
      FrameReads(fs[0], EncodeFrames(fs[1..]));
      FramesRead(fs[1..]);
    }
  }

  lemma NothingReads()
    ensures ReadFrame([]).Err?
  {
  }
}
