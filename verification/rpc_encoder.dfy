/**
 * `RpcEncoder`: writes a message as a fixed header followed by the body bytes.
 * Header layout, every multi-byte field big-endian:
 *   magic (2) | version (1) | serializer (1) | message type (1) | status (1)
 *   | request id (8) | body length (4)
 * which is 18 bytes in all.
 */
module Encoder {
  import opened Wrappers
  import opened JavaLang
  import opened BigEndian
  import opened Protocol
  import opened Buffers

  /** The number of header bytes the encoder writes before the body. */
  const HEADER_BYTES: nat := 2 + 1 + 1 + 1 + 1 + 8 + 4

  /** The header bytes, field by field in wire order. */
  function EncodeHeader(h: Header): (s: seq<Byte>)
    ensures |s| == HEADER_BYTES
  {
    JavaWidthsFit(h.version, h.magic, h.bodyLength, h.requestId);
    JavaWidthsFit(h.serializerType, 0, 0, 0);
    JavaWidthsFit(h.messageType, 0, 0, 0);
    JavaWidthsFit(h.status, 0, 0, 0);
    EncodeSigned(h.magic, 2) + EncodeSigned(h.version, 1) + EncodeSigned(h.serializerType, 1)
    + EncodeSigned(h.messageType, 1) + EncodeSigned(h.status, 1)
    + EncodeSigned(h.requestId, 8) + EncodeSigned(h.bodyLength, 4)
  }

  /** The body bytes written after the header: nothing for a null body. */
  function BodyBytes(m: Message): seq<Byte>
  {
    if m.body.Some? then m.body.value else []
  }

  /** Everything `encode` appends to `out` for message `m`. */
  function EncodeFrame(m: Message): (s: seq<Byte>)
    ensures |s| == HEADER_BYTES + |BodyBytes(m)|
  {
    EncodeHeader(m.header) + BodyBytes(m)
  }

  /** Each header field lands at its fixed offset, big-endian. */
  lemma HeaderLayout(h: Header)
    ensures JavaWidthsFitAll(h)
    ensures EncodeHeader(h)[0..2] == EncodeSigned(h.magic, 2)
    ensures EncodeHeader(h)[2..3] == EncodeSigned(h.version, 1)
    ensures EncodeHeader(h)[3..4] == EncodeSigned(h.serializerType, 1)
    ensures EncodeHeader(h)[4..5] == EncodeSigned(h.messageType, 1)
    ensures EncodeHeader(h)[5..6] == EncodeSigned(h.status, 1)
    ensures EncodeHeader(h)[6..14] == EncodeSigned(h.requestId, 8)
    ensures EncodeHeader(h)[14..18] == EncodeSigned(h.bodyLength, 4)
  {
    JavaWidthsFit(h.version, h.magic, h.bodyLength, h.requestId);
    JavaWidthsFit(h.serializerType, 0, 0, 0);
    JavaWidthsFit(h.messageType, 0, 0, 0);
    JavaWidthsFit(h.status, 0, 0, 0);
  }

  predicate JavaWidthsFitAll(h: Header)
  {
    FitsSigned(h.magic, 2) && FitsSigned(h.version, 1) && FitsSigned(h.serializerType, 1)
    && FitsSigned(h.messageType, 1) && FitsSigned(h.status, 1)
    && FitsSigned(h.requestId, 8) && FitsSigned(h.bodyLength, 4)
  }

  /**
   * The frame is the header followed by the body verbatim; a null body (a
   * heartbeat) gives exactly the header.
   */
  lemma FrameLayout(m: Message)
    ensures EncodeFrame(m)[..HEADER_BYTES] == EncodeHeader(m.header)
    ensures EncodeFrame(m)[HEADER_BYTES..] == BodyBytes(m)
    ensures m.body.None? ==> EncodeFrame(m) == EncodeHeader(m.header)
  {
  }

  /**
   * The body-length field is written as the header says, whatever body is
   * attached: the encoder never compares it with the body's real length.
   */
  lemma BodyLengthWrittenAsGiven(h: Header, b1: Option<JavaBytes>, b2: Option<JavaBytes>)
    ensures JavaWidthsFitAll(h)
    ensures EncodeFrame(Message(h, b1))[14..18] == EncodeFrame(Message(h, b2))[14..18]
                                               == EncodeSigned(h.bodyLength, 4)
  {
    HeaderLayout(h);
  }

  /** The first six header bytes: magic, version, serializer, message type and status. */
  method WriteLeadingFields(h: Header, out: ByteBuf)
    requires out.Valid()
    modifies out, out.data
    ensures out.Valid() && (out.data == old(out.data) || fresh(out.data))
    ensures out.Written() == old(out.Written()) + EncodeHeader(h)[..6]
    ensures out.readerIndex == old(out.readerIndex) && out.markedReaderIndex == old(out.markedReaderIndex)
  {
    HeaderLayout(h);
    ghost var acc := out.Written();
    out.WriteSigned(h.magic, 2);
    acc := acc + EncodeSigned(h.magic, 2);
    out.WriteSigned(h.version, 1);
    acc := acc + EncodeSigned(h.version, 1);
    out.WriteSigned(h.serializerType, 1);
    acc := acc + EncodeSigned(h.serializerType, 1);
    out.WriteSigned(h.messageType, 1);
    acc := acc + EncodeSigned(h.messageType, 1);
    out.WriteSigned(h.status, 1);
    acc := acc + EncodeSigned(h.status, 1);
    assert EncodeHeader(h)[..6] == EncodeSigned(h.magic, 2) + EncodeSigned(h.version, 1)
      + EncodeSigned(h.serializerType, 1) + EncodeSigned(h.messageType, 1) + EncodeSigned(h.status, 1);
  }

  /** `RpcEncoder.encode`: appends the frame to `out` and changes nothing else of it. */
  method Encode(msg: Message, out: ByteBuf)
    requires out.Valid()
    modifies out, out.data
    ensures out.Valid()
    ensures out.Written() == old(out.Written()) + EncodeFrame(msg)
    ensures out.readerIndex == old(out.readerIndex) && out.markedReaderIndex == old(out.markedReaderIndex)
  {
    var h := msg.header;
    HeaderLayout(h);
    WriteLeadingFields(h, out);
    ghost var acc := old(out.Written()) + EncodeHeader(h)[..6];
    out.WriteSigned(h.requestId, 8);
    acc := acc + EncodeSigned(h.requestId, 8);
    out.WriteSigned(h.bodyLength, 4);
    acc := acc + EncodeSigned(h.bodyLength, 4);
    assert EncodeHeader(h) == EncodeHeader(h)[..6] + EncodeSigned(h.requestId, 8) + EncodeSigned(h.bodyLength, 4);
    assert out.Written() == old(out.Written()) + EncodeHeader(h);
    if msg.body.Some? {
      out.WriteBytes(msg.body.value);
    }
  }
}
