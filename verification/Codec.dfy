/** The peer messages of BEP 3 and their wire form. */
module Codec {
  import opened Bytes

  type bytes8 = s: seq<byte> | |s| == 8 witness seq(8, _ => 0)
  type bytes20 = s: seq<byte> | |s| == 20 witness seq(20, _ => 0)

  datatype Message =
    | Choke
    | UnChoke
    | Interested
    | NotInterested
    | Have(pieceIndex: u32)
    | Bitfield(bitfield: seq<byte>)
    | Request(reqIndex: u32, reqBegin: u32, reqLength: u32)
    | Piece(index: u32, begin: u32, block: seq<byte>)
    | Cancel(cancelIndex: u32, cancelBegin: u32, cancelLength: u32)
    | Port(port: u16)
    | KeepAlive
    | HandShake(pstr: seq<byte>, reserved: bytes8, infoHash: bytes20, peerId: bytes20)

  datatype Reason = EmptyBuffer | NotAHandShake | LengthMismatch | UnknownType | PayloadRejected

  /** A decoder answers a message or a `SerializeError`. `PastEnd` is the third way
      `decodeHandShake` can go: it copies from beyond the end of its view. */
  datatype Decoded = Ok(message: Message) | SerializeError(reason: Reason) | PastEnd

  /** `getLen`, an unsigned 32-bit number. */
  function GetLen(m: Message): u32 {
    match m
    case Choke | UnChoke | Interested | NotInterested => 1
    case Have(_) => 5
    case Bitfield(bits) => (1 + |bits|) % TWO_32
    case Request(_, _, _) => 13
    case Piece(_, _, block) => (9 + |block|) % TWO_32
    case Cancel(_, _, _) => 13
    case Port(_) => 3
    case KeepAlive => 0
    case HandShake(pstr, _, _, _) => (49 + Signed(|pstr| % 0x100)) % TWO_32
  }

  /** `MSG_TYPE`; negative for the two kinds that are sent without one. */
  function MsgType(m: Message): int {
    match m
    case Choke => 0
    case UnChoke => 1
    case Interested => 2
    case NotInterested => 3
    case Have(_) => 4
    case Bitfield(_) => 5
    case Request(_, _, _) => 6
    case Piece(_, _, _) => 7
    case Cancel(_, _, _) => 8
    case Port(_) => 9
    case KeepAlive => -1
    case HandShake(_, _, _, _) => -1
  }

  function Payload(m: Message): seq<byte> {
    match m
    case Choke | UnChoke | Interested | NotInterested => []
    case Have(i) => BigEndian(i, 4)
    case Bitfield(bits) => bits
    case Request(i, b, n) => BigEndian(i, 4) + BigEndian(b, 4) + BigEndian(n, 4)
    case Piece(i, b, block) => BigEndian(i, 4) + BigEndian(b, 4) + block
    case Cancel(i, b, n) => BigEndian(i, 4) + BigEndian(b, 4) + BigEndian(n, 4)
    case Port(p) => BigEndian(p, 2)
    case KeepAlive => BigEndian(0, 4)
    case HandShake(pstr, reserved, infoHash, peerId) =>
      [|pstr| % 0x100] + pstr + reserved + infoHash + peerId
  }

  function Encode(m: Message): (buf: seq<byte>) {
    if MsgType(m) >= 0 then BigEndian(GetLen(m), 4) + BigEndian(MsgType(m), 1) + Payload(m) else Payload(m)
  }

  function DecodePayload(msgType: int, view: seq<byte>, len: nat): Decoded {
    if msgType == 0 && len == 1 then Ok(Choke)
    else if msgType == 1 && len == 1 then Ok(UnChoke)
    else if msgType == 2 && len == 1 then Ok(Interested)
    else if msgType == 3 && len == 1 then Ok(NotInterested)
    else if msgType == 4 && len == 5 then Ok(Have(Int4(view)))
    else if msgType == 5 then Ok(Bitfield(view))
    else if msgType == 6 && len == 13 then Ok(Request(Int4(view), Int4(Back(view, 4)), Int4(Back(view, 8))))
    else if msgType == 7 && len >= 9 then Ok(Piece(Int4(view), Int4(Back(view, 4)), Back(view, 8)))
    else if msgType == 8 && len == 13 then Ok(Cancel(Int4(view), Int4(Back(view, 4)), Int4(Back(view, 8))))
    else if msgType == 9 && len == 3 then Ok(Port(Int2(view)))
    else SerializeError(if 0 <= msgType <= 9 then PayloadRejected else UnknownType)
  }

  function Int4(view: seq<byte>): u32 {
    WireIntegers(0, Front(view, 4));
    FromBigEndian(Front(view, 4))
  }

  function Int2(view: seq<byte>): u16 {
    WireIntegers(0, Front(view, 2));
    FromBigEndian(Front(view, 2))
  }

  function Decode(buf: seq<byte>): Decoded {
    var len, view := Int4(buf), Back(buf, 4);
    if len != |view| then SerializeError(LengthMismatch)
    else if len == 0 then Ok(KeepAlive)
    else DecodePayload(Signed(view[0]), view[1..], len)
  }

  /** `pstrLen` is a signed `char` widened to 32 unsigned bits, and so is the sum. */
  function DecodeHandShake(buf: seq<byte>): Decoded {
    if buf == [] then SerializeError(EmptyBuffer)
    else
      var pstrLen := Signed(buf[0]) % TWO_32;
      var view := buf[1..];
      if |buf| != (pstrLen + 49) % TWO_32 then SerializeError(NotAHandShake)
      else if |view| < pstrLen + 48 then PastEnd
      else
        Ok(HandShake(view[..pstrLen], view[pstrLen..pstrLen + 8],
                     view[pstrLen + 8..pstrLen + 28], view[pstrLen + 28..pstrLen + 48]))
  }

  /** The bytes of a number, written out. */
  function Four(n: u32): seq<byte> {
    [n / 0x100_0000, n / 0x1_0000 % 0x100, n / 0x100 % 0x100, n % 0x100]
  }

  lemma FourBytes(n: u32)
    ensures BigEndian(n, 4) == Four(n)
  {
    var a, b := n / 256, n / 256 / 256;
    assert BigEndian(b / 256, 1) == [b / 256 % 256] by {
      assert BigEndian(b / 256, 1) == BigEndian(b / 256 / 256, 0) + [b / 256 % 256];
    }
    assert BigEndian(b, 2) == [b / 256 % 256, b % 256];
    assert BigEndian(a, 3) == [b / 256 % 256, b % 256, a % 256];
    assert b / 256 < 256 && b / 256 == n / 0x100_0000 && b == n / 0x1_0000;
  }

  /** The frames of BEP 3, byte for byte. */
  function Frame(m: Message): seq<byte> {
    match m
    case Choke => [0, 0, 0, 1, 0]
    case UnChoke => [0, 0, 0, 1, 1]
    case Interested => [0, 0, 0, 1, 2]
    case NotInterested => [0, 0, 0, 1, 3]
    case Have(i) => [0, 0, 0, 5, 4] + Four(i)
    case Bitfield(bits) => Four((1 + |bits|) % TWO_32) + [5] + bits
    case Request(i, begin, length) => [0, 0, 0, 13, 6] + Four(i) + Four(begin) + Four(length)
    case Piece(i, begin, block) => Four((9 + |block|) % TWO_32) + [7] + Four(i) + Four(begin) + block
    case Cancel(i, begin, length) => [0, 0, 0, 13, 8] + Four(i) + Four(begin) + Four(length)
    case Port(p) => [0, 0, 0, 3, 9, p / 0x100, p % 0x100]
    case KeepAlive => [0, 0, 0, 0]
    case HandShake(pstr, reserved, infoHash, peerId) => [|pstr| % 0x100] + pstr + reserved + infoHash + peerId
  }

  /** What is sent is what BEP 3 says. */
  lemma EncodedFrame(m: Message)
    ensures Encode(m) == Frame(m)
  {
    if MsgType(m) >= 0 {
      PrefixBytes(m);
    }
    hide BigEndian;
    match m
    case Have(i) => FourBytes(i);
    case Request(i, begin, length) =>
      FourBytes(i);
      FourBytes(begin);
      FourBytes(length);
      Joined([0, 0, 0, 13, 6], Four(i), Four(begin), Four(length));
    case Piece(i, begin, block) =>
      FourBytes(i);
      FourBytes(begin);
      Joined(Four((9 + |block|) % TWO_32) + [7], Four(i), Four(begin), block);
    case Cancel(i, begin, length) =>
      FourBytes(i);
      FourBytes(begin);
      FourBytes(length);
      Joined([0, 0, 0, 13, 8], Four(i), Four(begin), Four(length));
    case Port(p) => TwoBytes(p);
    case KeepAlive => FourBytes(0);
    case _ =>
  }

  lemma Joined(a: seq<byte>, b: seq<byte>, c: seq<byte>, d: seq<byte>)
    ensures a + (b + c + d) == a + b + c + d
  {
  }

  lemma TwoBytes(p: u16)
    ensures BigEndian(p, 2) == [p / 0x100, p % 0x100]
  {
    assert BigEndian(p / 256, 1) == BigEndian(p / 256 / 256, 0) + [p / 256 % 256];
  }

  lemma PrefixBytes(m: Message)
    requires MsgType(m) >= 0
    ensures BigEndian(GetLen(m), 4) + BigEndian(MsgType(m), 1) == Four(GetLen(m)) + [MsgType(m)]
  {
    FourBytes(GetLen(m));
    OneByte(MsgType(m));
  }

  /** How long the messages of a kind are. */
  predicate SizeFits(kind: byte, len: nat) {
    if kind <= 3 then len == 1 else if kind == 4 then len == 5 else if kind == 5 then true
    else if kind == 7 then len >= 9 else if kind == 9 then len == 3 else len == 13
  }

  /** Every buffer is read as a message or rejected for exactly one of three reasons: its length field is wrong,
      its kind is unknown, or its kind has another length. */
  lemma DecodedExactly(buf: seq<byte>)
    ensures var len, view, d := Int4(buf), Back(buf, 4), Decode(buf);
            && (d == SerializeError(LengthMismatch) <==> len != |view|)
            && (d == SerializeError(UnknownType) <==> len == |view| > 0 && view[0] > 9)
            && (d == SerializeError(PayloadRejected) <==>
                  len == |view| > 0 && view[0] <= 9 && !SizeFits(view[0], len))
            && (d.Ok? <==> len == |view| && (len > 0 ==> view[0] <= 9 && SizeFits(view[0], len)))
  {
    hide Int4, Int2, Back;
  }

  /** A decoded frame long enough to be a handshake is never read past its end. */
  lemma HandShakeFrameInBounds(buf: seq<byte>)
    requires |buf| >= 49
    ensures !DecodeHandShake(buf).PastEnd?
  {
  }

  /** The fields whose sizes the length prefix counts fit its 32 bits. */
  predicate LengthFits(m: Message) {
    match m
    case Bitfield(bits) => 1 + |bits| < TWO_32
    case Piece(_, _, block) => 9 + |block| < TWO_32
    case _ => true
  }

  lemma Fronts(a: seq<byte>, b: seq<byte>, width: nat)
    requires |a| == width
    ensures Front(a + b, width) == a && Back(a + b, width) == b
  {
  }

  lemma PayloadRoundTrip(m: Message)
    requires MsgType(m) >= 0 && LengthFits(m)
    ensures DecodePayload(MsgType(m), Payload(m), GetLen(m)) == Ok(m)
  {
    hide BigEndian, FromBigEndian;
    match m
    case Have(i) => OneInteger(i, []);
    case Request(i, b, n) => TwoIntegers(i, b, BigEndian(n, 4)); OneInteger(n, []);
    case Cancel(i, b, n) => TwoIntegers(i, b, BigEndian(n, 4)); OneInteger(n, []);
    case Piece(i, b, block) => TwoIntegers(i, b, block);
    case Port(p) => WireIntegers(p, []);
    case _ =>
  }

  lemma OneInteger(i: u32, tail: seq<byte>)
    ensures Int4(BigEndian(i, 4) + tail) == i && Back(BigEndian(i, 4) + tail, 4) == tail
    ensures BigEndian(i, 4) + [] == BigEndian(i, 4)
  {
    hide BigEndian, FromBigEndian;
    WireIntegers(i, []);
    Fronts(BigEndian(i, 4), tail, 4);
  }

  lemma TwoIntegers(i: u32, b: u32, tail: seq<byte>)
    ensures var s := BigEndian(i, 4) + BigEndian(b, 4) + tail;
            Int4(s) == i && Int4(Back(s, 4)) == b && Back(s, 8) == tail
  {
    hide BigEndian, FromBigEndian, Int4;
    var x, y := BigEndian(i, 4), BigEndian(b, 4);
    assert x + y + tail == x + (y + tail);
    OneInteger(i, y + tail);
    OneInteger(b, tail);
    Fronts(x + y, tail, 8);
  }

  /** An encoded message is its length prefix, its type and its payload. */
  lemma EncodedParts(m: Message)
    requires MsgType(m) >= 0
    ensures |Encode(m)| == |Payload(m)| + 5
    ensures Int4(Encode(m)) == GetLen(m)
    ensures Back(Encode(m), 4) == [MsgType(m)] + Payload(m)
  {
    hide BigEndian, FromBigEndian, Payload, GetLen;
    OneByte(MsgType(m));
    WireIntegers(GetLen(m), []);
    Fronts(BigEndian(GetLen(m), 4), [MsgType(m)] + Payload(m), 4);
    assert Encode(m) == BigEndian(GetLen(m), 4) + ([MsgType(m)] + Payload(m));
  }

  /** The prefix of an encoded message, as the framer and the decoder read it. */
  lemma EncodedPrefix(m: Message)
    requires !m.HandShake? && LengthFits(m)
    ensures |Encode(m)| == GetLen(m) + 4
    ensures FromBigEndian(Encode(m)[..4]) == GetLen(m)
  {
    hide BigEndian, FromBigEndian;
    if m.KeepAlive? {
      WireIntegers(0, []);
      assert BigEndian(0, 4)[..4] == BigEndian(0, 4);
    } else {
      EncodedParts(m);
    }
  }

  /** Decoding an encoded message returns it exactly when its length prefix does not wrap. */
  lemma DecodeEncode(m: Message)
    requires !m.HandShake?
    ensures Decode(Encode(m)) == Ok(m) <==> LengthFits(m)
    ensures !LengthFits(m) ==> Decode(Encode(m)) == SerializeError(LengthMismatch)
  {
    hide BigEndian, FromBigEndian, DecodePayload;
    if m.KeepAlive? {
      WireIntegers(0, []);
      Fronts(BigEndian(0, 4), [], 4);
      assert Encode(m) == BigEndian(0, 4) + [];
    } else {
      EncodedParts(m);
      if LengthFits(m) {
        PayloadRoundTrip(m);
      }
    }
  }

  /** The protocol strings whose length survives being sent as a signed `char`. The second range
      is reached only by strings of about four gigabytes, where the 32-bit sum wraps back. */
  predicate PstrFits(size: nat) {
    size < 128 || TWO_32 - 128 <= size < TWO_32 - 49
  }

  lemma HandShakeRoundTrip(h: Message)
    requires h.HandShake?
    ensures DecodeHandShake(Encode(h)) == Ok(h) <==> PstrFits(|h.pstr|)
    ensures !PstrFits(|h.pstr|) ==> DecodeHandShake(Encode(h)) == SerializeError(NotAHandShake)
  {
    var buf, n := Encode(h), |h.pstr|;
    assert buf[0] == n % 0x100;
    assert buf[1..] == h.pstr + h.reserved + h.infoHash + h.peerId;
    PstrArithmetic(n);
    if PstrFits(n) {
      HandShakeParts(h);
    }
  }

  lemma PstrArithmetic(n: nat)
    ensures n + 49 == (Signed(n % 0x100) % TWO_32 + 49) % TWO_32 <==> PstrFits(n)
    ensures PstrFits(n) ==> Signed(n % 0x100) % TWO_32 == n
  {
  }

  lemma HandShakeParts(h: Message)
    requires h.HandShake?
    ensures var view, n := h.pstr + h.reserved + h.infoHash + h.peerId, |h.pstr|;
            view[..n] == h.pstr && view[n..n + 8] == h.reserved
            && view[n + 8..n + 28] == h.infoHash && view[n + 28..n + 48] == h.peerId
  {
  }

  /** A buffer that `decode` accepts is printed back unchanged exactly when it holds a whole length prefix. */
  lemma EncodeDecode(buf: seq<byte>)
    requires Decode(buf).Ok?
    ensures !Decode(buf).message.HandShake? && LengthFits(Decode(buf).message)
    ensures Encode(Decode(buf).message) == buf <==> |buf| >= 4
  {
    hide BigEndian, FromBigEndian;
    var len, view, m := Int4(buf), Back(buf, 4), Decode(buf).message;
    WireIntegers(0, Front(buf, 4));
    if |buf| >= 4 {
      assert buf == BigEndian(len, 4) + view;
      if len > 0 {
        PayloadPrinted(Signed(view[0]), view[1..], len);
        assert view == [view[0]] + view[1..];
        OneByte(view[0]);
      }
    } else {
      assert view == [];
    }
  }

  lemma PayloadPrinted(msgType: int, view: seq<byte>, len: u32)
    requires len == |view| + 1 && DecodePayload(msgType, view, len).Ok?
    ensures var m := DecodePayload(msgType, view, len).message;
            MsgType(m) == msgType && GetLen(m) == len && Payload(m) == view && LengthFits(m)
  {
    hide BigEndian, FromBigEndian;
    if msgType == 4 {
      PrintFront(view);
      assert Back(view, 4) == [];
    } else if msgType == 6 || msgType == 7 || msgType == 8 {
      PrintFront(view);
      PrintFront(Back(view, 4));
      assert Back(Back(view, 4), 4) == Back(view, 8);
      if msgType != 7 {
        PrintFront(Back(view, 8));
        assert Back(Back(view, 8), 4) == [];
      }
    } else if msgType == 9 {
      WireIntegers(0, view);
    }
  }

  /** Printing the integer at the front of a view gives those four bytes back. */
  lemma PrintFront(view: seq<byte>)
    requires |view| >= 4
    ensures view == BigEndian(Int4(view), 4) + Back(view, 4)
    ensures Back(view, 4) == [] ==> view == BigEndian(Int4(view), 4)
  {
    hide BigEndian, FromBigEndian;
    WireIntegers(0, view[..4]);
    assert Front(view, 4) == view[..4];
  }

  lemma PrintDecodedHandShake(buf: seq<byte>)
    requires DecodeHandShake(buf).Ok?
    ensures Encode(DecodeHandShake(buf).message) == buf
  {
    var h, view := DecodeHandShake(buf).message, buf[1..];
    var n := |h.pstr|;
    PstrByte(buf[0]);
    FourParts(buf, n);
  }

  lemma FourParts(buf: seq<byte>, n: nat)
    requires |buf| == n + 49
    ensures var view := buf[1..];
            [buf[0]] + view[..n] + view[n..n + 8] + view[n + 8..n + 28] + view[n + 28..n + 48] == buf
  {
  }

  lemma PstrByte(b: byte)
    ensures (Signed(b) % TWO_32) % 0x100 == b
  {
  }

  lemma Append3(buf: seq<byte>, a: seq<byte>, b: seq<byte>, c: seq<byte>)
    ensures buf + a + b + c == buf + (a + b + c)
  {
  }

  lemma Append5(buf: seq<byte>, a: seq<byte>, b: seq<byte>, c: seq<byte>, d: seq<byte>, e: seq<byte>)
    ensures buf + a + b + c + d + e == buf + (a + b + c + d + e)
  {
  }

  method AppendInt(buf: seq<byte>, t: nat, width: nat) returns (buf': seq<byte>)
    ensures buf' == buf + BigEndian(t, width)
  {
    var v := IntToBytes(t, width);
    buf' := buf + v;
  }

  /** The `encodePayload` specialisations, each appending to the caller's buffer. */
  method EncodePayload(m: Message, buf: seq<byte>) returns (buf': seq<byte>)
    ensures buf' == buf + Payload(m)
  {
    hide BigEndian;
    match m
    case Choke | UnChoke | Interested | NotInterested =>
      buf' := buf;
    case Have(i) =>
      buf' := AppendInt(buf, i, 4);
    case Bitfield(bits) =>
      buf' := buf + bits;
    case Request(i, b, n) =>
      buf' := AppendInts(buf, i, b, n);
    case Piece(i, b, block) =>
      Append3(buf, BigEndian(i, 4), BigEndian(b, 4), block);
      buf' := AppendInt(buf, i, 4);
      buf' := AppendInt(buf', b, 4);
      buf' := buf' + block;
    case Cancel(i, b, n) =>
      buf' := AppendInts(buf, i, b, n);
    case Port(p) =>
      buf' := AppendInt(buf, p, 2);
    case KeepAlive =>
      buf' := AppendInt(buf, GetLen(m), 4);
    case HandShake(pstr, reserved, infoHash, peerId) =>
      Append5(buf, [|pstr| % 0x100], pstr, reserved, infoHash, peerId);
      buf' := buf + [|pstr| % 0x100];
      buf' := buf' + pstr;
      buf' := buf' + reserved;
      buf' := buf' + infoHash;
      buf' := buf' + peerId;
  }

  method AppendInts(buf: seq<byte>, i: u32, b: u32, n: u32) returns (buf': seq<byte>)
    ensures buf' == buf + (BigEndian(i, 4) + BigEndian(b, 4) + BigEndian(n, 4))
  {
    hide BigEndian;
    Append3(buf, BigEndian(i, 4), BigEndian(b, 4), BigEndian(n, 4));
    buf' := AppendInt(buf, i, 4);
    buf' := AppendInt(buf', b, 4);
    buf' := AppendInt(buf', n, 4);
  }

  /** `BitTorrentEncoder::encode`. */
  method EncodeMessage(m: Message) returns (buf: seq<byte>)
    ensures buf == Encode(m)
  {
    hide BigEndian;
    buf := [];
    if MsgType(m) >= 0 {
      buf := AppendInt(buf, GetLen(m), 4);
      buf := AppendInt(buf, MsgType(m), 1);
    }
    buf := EncodePayload(m, buf);
  }

  /** `BitTorrentEncoder::decode`: every read shortens the view. */
  method DecodeMessage(buf: seq<byte>) returns (d: Decoded)
    ensures d == Decode(buf)
  {
    hide FromBigEndian;
    var len, view := BytesToInt(buf, 4);
    if len != |view| {
      return SerializeError(LengthMismatch);
    }
    if len == 0 && |view| == 0 {
      return Ok(KeepAlive);
    }
    var msgType := Signed(view[0]);
    view := view[1..];
    d := DecodePayloadFrom(msgType, view, len);
  }

  /** The `decodePayloadImpl` specialisations. */
  method DecodePayloadFrom(msgType: int, view: seq<byte>, len: nat) returns (d: Decoded)
    ensures d == DecodePayload(msgType, view, len)
  {
    hide FromBigEndian;
    WireIntegers(0, Front(view, 4));
    WireIntegers(0, Front(view, 2));
    WireIntegers(0, Front(Back(view, 4), 4));
    WireIntegers(0, Front(Back(view, 8), 4));
    assert Back(Back(view, 4), 4) == Back(view, 8);
    if msgType == 0 && len == 1 {
      d := Ok(Choke);
    } else if msgType == 1 && len == 1 {
      d := Ok(UnChoke);
    } else if msgType == 2 && len == 1 {
      d := Ok(Interested);
    } else if msgType == 3 && len == 1 {
      d := Ok(NotInterested);
    } else if msgType == 4 && len == 5 {
      var i, _ := BytesToInt(view, 4);
      d := Ok(Have(i));
    } else if msgType == 5 {
      d := Ok(Bitfield(view));
    } else if (msgType == 6 || msgType == 8) && len == 13 {
      var i, v1 := BytesToInt(view, 4);
      var b, v2 := BytesToInt(v1, 4);
      var n, _ := BytesToInt(v2, 4);
      d := Ok(if msgType == 6 then Request(i, b, n) else Cancel(i, b, n));
    } else if msgType == 7 && len >= 9 {
      var i, v1 := BytesToInt(view, 4);
      var b, v2 := BytesToInt(v1, 4);
      d := Ok(Piece(i, b, v2));
    } else if msgType == 9 && len == 3 {
      var p, _ := BytesToInt(view, 2);
      d := Ok(Port(p));
    } else {
      d := SerializeError(if 0 <= msgType <= 9 then PayloadRejected else UnknownType);
    }
  }

  /** `BitTorrentEncoder::decodeHandShake`, on any frame whose end it does not read past. */
  method DecodeHandShakeMessage(buf: seq<byte>) returns (d: Decoded)
    requires !DecodeHandShake(buf).PastEnd?
    ensures d == DecodeHandShake(buf)
  {
    if buf == [] {
      return SerializeError(EmptyBuffer);
    }
    var view, pstrLen := buf, Signed(buf[0]) % TWO_32;
    if |view| != (pstrLen + 49) % TWO_32 {
      return SerializeError(NotAHandShake);
    }
    view := view[1..];
    var pstr := view[..pstrLen];
    view := view[pstrLen..];
    var reserved := view[..8];
    view := view[8..];
    var infoHash := view[..20];
    view := view[20..];
    var peerId := view[..20];
    d := Ok(HandShake(pstr, reserved, infoHash, peerId));
    ghost var v := buf[1..];
    assert v[pstrLen..pstrLen + 8] == reserved && v[pstrLen + 8..pstrLen + 28] == infoHash;
    assert v[pstrLen + 28..pstrLen + 48] == peerId;
  }
}
