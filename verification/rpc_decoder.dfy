/**
 * `RpcDecoder`: one decoding step over the readable bytes of the inbound
 * buffer. It emits one whole frame, or emits nothing and leaves the reader
 * index where it was, or (negative body length) fails after the header.
 */
module Decoder {
  import opened Wrappers
  import opened JavaLang
  import opened BigEndian
  import opened Protocol
  import opened Buffers
  import Encoder

  /** `HEADER_LENGTH`: 2 + 1 + 1 + 1 + 1 + 8 + 4 bytes. */
  const HEADER_LENGTH: nat := 2 + 1 + 1 + 1 + 1 + 8 + 4

  datatype DecodeOutcome =
    | NeedMore                              // nothing emitted, reader index unchanged
    | Decoded(msg: Message)                 // one message emitted
    | NegativeBodyLength(length: Int32)     // `new byte[length]` throws after the header was read

  /** The header fields as `readShort`/`readByte`/`readLong`/`readInt` return them. */
  function ParseHeader(s: seq<Byte>): (h: Header)
    requires |s| >= HEADER_LENGTH
  {
    Pow256Widths();
    Header(DecodeSigned(s[0..2]), DecodeSigned(s[2..3]), DecodeSigned(s[3..4]),
           DecodeSigned(s[4..5]), DecodeSigned(s[5..6]), DecodeSigned(s[6..14]),
           DecodeSigned(s[14..18]))
  }

  /** What `decode` does with readable bytes `s`. */
  function DecodeStep(s: seq<Byte>): (r: DecodeOutcome)
    ensures |s| < HEADER_LENGTH ==> r == NeedMore
    ensures r.Decoded? ==>
      && r.msg.body.Some? && r.msg.header.bodyLength == |r.msg.body.value|
      && HEADER_LENGTH + |r.msg.body.value| <= |s|
      && r.msg.body.value == s[HEADER_LENGTH..HEADER_LENGTH + |r.msg.body.value|]
    ensures r.NegativeBodyLength? ==> |s| >= HEADER_LENGTH && r.length < 0
  {
    if |s| < HEADER_LENGTH then NeedMore
    else
      var h := ParseHeader(s);
      if |s| - HEADER_LENGTH < h.bodyLength then NeedMore
      else if h.bodyLength < 0 then NegativeBodyLength(h.bodyLength)
      else Decoded(Message(h, Some(s[HEADER_LENGTH..HEADER_LENGTH + h.bodyLength])))
  }

  /** How far the reader index moves for each outcome. */
  function Consumed(r: DecodeOutcome): nat
  {
    match r
    case NeedMore => 0
    case Decoded(m) => HEADER_LENGTH + (if m.body.Some? then |m.body.value| else 0)
    case NegativeBodyLength(_) => HEADER_LENGTH
  }

  /**
   * The header is validated nowhere: whether a frame is emitted depends only on
   * the number of readable bytes and on the body-length field, never on magic,
   * version, serializer, message type, status or request id.
   */
  lemma EmitsExactlyWhenBodyPresent(s: seq<Byte>)
    ensures DecodeStep(s).Decoded? <==>
      |s| >= HEADER_LENGTH && 0 <= DecodeSigned(s[14..18]) <= |s| - HEADER_LENGTH
    ensures DecodeStep(s).NegativeBodyLength? <==>
      |s| >= HEADER_LENGTH && DecodeSigned(s[14..18]) < 0
  {
  }

  /** An emitted message carries the fields read and the next bodyLength bytes, and no more. */
  lemma DecodedFrame(s: seq<Byte>)
    requires DecodeStep(s).Decoded?
    ensures var m := DecodeStep(s).msg;
      && m.header == ParseHeader(s)
      && m.body == Some(s[HEADER_LENGTH..Consumed(DecodeStep(s))])
      && Consumed(DecodeStep(s)) == HEADER_LENGTH + m.header.bodyLength <= |s|
  {
  }

  lemma ParseEncodedHeader(h: Header, rest: seq<Byte>)
    ensures ParseHeader(Encoder.EncodeHeader(h) + rest) == h
  {
    Encoder.HeaderLayout(h);
    var e := Encoder.EncodeHeader(h);
    var s := e + rest;
    assert s[0..2] == e[0..2] && s[2..3] == e[2..3] && s[3..4] == e[3..4];
    assert s[4..5] == e[4..5] && s[5..6] == e[5..6] && s[6..14] == e[6..14];
    assert s[14..18] == e[14..18];
    DecodeEncodeSigned(h.magic, 2);
    DecodeEncodeSigned(h.version, 1);
    DecodeEncodeSigned(h.serializerType, 1);
    DecodeEncodeSigned(h.messageType, 1);
    DecodeEncodeSigned(h.status, 1);
    DecodeEncodeSigned(h.requestId, 8);
    DecodeEncodeSigned(h.bodyLength, 4);
  }

  /** The header fields are read from the first HEADER_LENGTH bytes only. */
  lemma ParseHeaderPrefix(s: seq<Byte>, t: seq<Byte>)
    requires |s| >= HEADER_LENGTH && |t| >= HEADER_LENGTH
    requires s[..HEADER_LENGTH] == t[..HEADER_LENGTH]
    ensures ParseHeader(s) == ParseHeader(t)
  {
    assert s[0..2] == t[0..2] && s[2..3] == t[2..3] && s[3..4] == t[3..4];
    assert s[4..5] == t[4..5] && s[5..6] == t[5..6] && s[6..14] == t[6..14];
    assert s[14..18] == t[14..18];
  }

  /** A message whose header states its body's real length (0 for a null body). */
  predicate WellFormed(m: Message)
  {
    m.header.bodyLength == |Encoder.BodyBytes(m)|
  }

  /** The message the decoder hands on for `m`: the same header, and a body that is never null. */
  function Received(m: Message): Message
  {
    Message(m.header, Some(Encoder.BodyBytes(m)))
  }

  /**
   * Round trip: decoding the encoder's output gives back the header and the
   * body, consumes exactly the frame and leaves whatever follows unread.
   */
  lemma RoundTrip(m: Message, rest: seq<Byte>)
    requires WellFormed(m)
    ensures DecodeStep(Encoder.EncodeFrame(m) + rest) == Decoded(Received(m))
    ensures Consumed(DecodeStep(Encoder.EncodeFrame(m) + rest)) == |Encoder.EncodeFrame(m)|
  {
    var h := Encoder.EncodeHeader(m.header);
    var b := Encoder.BodyBytes(m);
    var s := Encoder.EncodeFrame(m) + rest;
    assert s == h + (b + rest);
    ParseEncodedHeader(m.header, b + rest);
    assert s[HEADER_LENGTH..HEADER_LENGTH + |b|] == b;
  }

  /**
   * Partial-frame safety: any proper prefix of a well-formed frame makes the
   * decoder wait, without emitting anything and without consuming anything.
   */
  lemma PartialFrameWaits(m: Message, k: nat)
    requires WellFormed(m) && k < |Encoder.EncodeFrame(m)|
    ensures DecodeStep(Encoder.EncodeFrame(m)[..k]) == NeedMore
  {
    var f := Encoder.EncodeFrame(m);
    if k >= HEADER_LENGTH {
      ParseHeaderPrefix(f[..k], f);
      ParseEncodedHeader(m.header, Encoder.BodyBytes(m));
      assert f == Encoder.EncodeHeader(m.header) + Encoder.BodyBytes(m);
    }
  }

  lemma SliceOfWindow(d: seq<Byte>, r: nat, w: nat, a: nat, b: nat)
    requires r <= w <= |d| && a <= b <= w - r
    ensures d[r..w][a..b] == d[r + a..r + b]
  {
    var x, y := d[r..w][a..b], d[r + a..r + b];
    assert |x| == |y|;
    forall i | 0 <= i < |x|
      ensures x[i] == y[i]
    {
      assert x[i] == d[r + a + i];
    }
  }

  /** The header fields of the readable window `d[r..w]`, by absolute position. */
  lemma ParseHeaderAt(d: seq<Byte>, r: nat, w: nat)
    requires r + HEADER_LENGTH <= w <= |d|
    ensures var h := ParseHeader(d[r..w]);
      && h.magic == DecodeSigned(d[r..r + 2]) && h.version == DecodeSigned(d[r + 2..r + 3])
      && h.serializerType == DecodeSigned(d[r + 3..r + 4]) && h.messageType == DecodeSigned(d[r + 4..r + 5])
      && h.status == DecodeSigned(d[r + 5..r + 6]) && h.requestId == DecodeSigned(d[r + 6..r + 14])
      && h.bodyLength == DecodeSigned(d[r + 14..r + 18])
  {
    Pow256Widths();
    SliceOfWindow(d, r, w, 0, 2);
    SliceOfWindow(d, r, w, 2, 3);
    SliceOfWindow(d, r, w, 3, 4);
    SliceOfWindow(d, r, w, 4, 5);
    SliceOfWindow(d, r, w, 5, 6);
    SliceOfWindow(d, r, w, 6, 14);
    SliceOfWindow(d, r, w, 14, 18);
  }

  /** The seven `read*` calls of `decode`, in wire order; they advance the reader index by HEADER_LENGTH. */
  method ReadHeaderFields(inbound: ByteBuf) returns (fields: Header)
    requires inbound.Valid() && inbound.ReadableBytes() >= HEADER_LENGTH
    modifies inbound
    ensures inbound.Valid() && inbound.data == old(inbound.data) && inbound.writerIndex == old(inbound.writerIndex)
    ensures inbound.markedReaderIndex == old(inbound.markedReaderIndex)
    ensures fields == ParseHeader(old(inbound.Readable()))
    ensures inbound.readerIndex == old(inbound.readerIndex) + HEADER_LENGTH
    ensures inbound.Readable() == old(inbound.Readable())[HEADER_LENGTH..]
  {
    ghost var r := inbound.readerIndex;
    ghost var s := inbound.Readable();
    var magic := inbound.ReadSigned(2);
    var version := inbound.ReadSigned(1);
    var serializerType := inbound.ReadSigned(1);
    var messageType := inbound.ReadSigned(1);
    var status := inbound.ReadSigned(1);
    var requestId := inbound.ReadSigned(8);
    var bodyLength := inbound.ReadSigned(4);
    ParseHeaderAt(inbound.data[..], r, inbound.writerIndex);
    fields := Header(magic, version, serializerType, messageType, status, requestId, bodyLength);
  }

  /** `new MessageHeader()` followed by the seven setters, each given the field read for it. */
  method HeaderOf(fields: Header) returns (header: MessageHeader)
    ensures fresh(header) && header.Value() == fields
  {
    header := new MessageHeader();
    header.SetMagic(fields.magic);
    header.SetVersion(fields.version);
    header.SetSerializerType(fields.serializerType);
    header.SetMessageType(fields.messageType);
    header.SetStatus(fields.status);
    header.SetRequestId(fields.requestId);
    header.SetBodyLength(fields.bodyLength);
  }

  /**
   * `RpcDecoder.decode`: the outcome is `DecodeStep` of the readable bytes; the
   * reader index advances by exactly what that outcome consumes; the
   * bytes after an emitted frame stay readable.
   */
  method Decode(inbound: ByteBuf) returns (emitted: seq<Message>, thrown: Option<Exception>)
    requires inbound.Valid()
    modifies inbound
    ensures inbound.Valid() && inbound.data == old(inbound.data) && inbound.writerIndex == old(inbound.writerIndex)
    ensures var r := DecodeStep(old(inbound.Readable()));
      && inbound.readerIndex == old(inbound.readerIndex) + Consumed(r)
      && inbound.Readable() == old(inbound.Readable())[Consumed(r)..]
      && emitted == (if r.Decoded? then [r.msg] else [])
      && thrown == (if r.NegativeBodyLength? then
                      Some(Throw(NegativeArraySizeException, IntToString(r.length)))
                    else None)
    ensures old(inbound.ReadableBytes()) >= HEADER_LENGTH ==> inbound.markedReaderIndex == old(inbound.readerIndex)
    ensures old(inbound.ReadableBytes()) < HEADER_LENGTH ==> inbound.markedReaderIndex == old(inbound.markedReaderIndex)
  {
    emitted, thrown := [], None;
    if inbound.ReadableBytes() < HEADER_LENGTH {
      return;
    }
    ghost var s := inbound.Readable();
    inbound.MarkReaderIndex();
    var fields := ReadHeaderFields(inbound);
    var bodyLength := fields.bodyLength;

    if inbound.ReadableBytes() < bodyLength {
      inbound.ResetReaderIndex();
      return;
    }
    if bodyLength < 0 {
      thrown := Some(Throw(NegativeArraySizeException, IntToString(bodyLength)));
      return;
    }
    var body := inbound.ReadBytes(bodyLength);
    assert body == s[HEADER_LENGTH..HEADER_LENGTH + bodyLength];

    var header := HeaderOf(fields);
    emitted := [Message(header.Value(), Some(body))];
  }

  /**
   * Feeding the bytes of a well-formed frame into an inbound buffer one at a
   * time, and running the decoder after each, emits nothing until the last
   * byte arrives and then exactly the one message.
   */
  method FeedOneByteAtATime(m: Message) returns (emitted: seq<Message>)
    requires WellFormed(m)
    ensures emitted == [Received(m)]
  {
    var frame := Encoder.EncodeFrame(m);
    var buf := new ByteBuf(0);
    emitted := [];
    var i := 0;
    while i < |frame|
      invariant 0 <= i <= |frame|
      invariant fresh(buf) && fresh(buf.data) && buf.Valid()
      invariant i < |frame| ==> buf.Readable() == frame[..i] && emitted == []
      invariant i == |frame| ==> emitted == [Received(m)]
    {
      buf.WriteBytes([frame[i]]);
      assert buf.Readable() == frame[..i + 1];
      var out, _ := Decode(buf);
      if i + 1 < |frame| {
        PartialFrameWaits(m, i + 1);
      } else {
        RoundTrip(m, []);
        assert frame[..i + 1] == frame + [];
      }
      emitted := emitted + out;
      i := i + 1;
    }
  }
}
