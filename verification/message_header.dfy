/**
 * The frame header and the message that carries it. `MessageHeader` is the
 * mutable bean the handlers fill in through setters; `Header` is the value a
 * bean holds at one moment, which the codec writes and reads.
 */
module Protocol {
  import opened Wrappers
  import opened JavaLang
  import MessageTypes
  import SerializerTypes

  const DEFAULT_MAGIC: Int16 := 0x10
  const DEFAULT_VERSION: Int8 := 0x1

  datatype Header = Header(
    magic: Int16,
    version: Int8,
    serializerType: Int8,
    messageType: Int8,
    status: Int8,
    requestId: Int64,
    bodyLength: Int32)

  /** `RpcMessage`: a header and a body that is a byte array or null. */
  datatype Message = Message(header: Header, body: Option<JavaBytes>)

  /** What `new MessageHeader()` holds: default magic and version, every other field zero. */
  function FreshHeader(): (h: Header)
    ensures h.magic == 0x10 && h.version == 1
    ensures h.serializerType == 0 && h.messageType == 0 && h.status == 0
    ensures h.requestId == 0 && h.bodyLength == 0
  {
    Header(DEFAULT_MAGIC, DEFAULT_VERSION, 0, 0, 0, 0, 0)
  }

  /** `(byte) type.getCode()` for a message type. */
  function MessageTypeByte(t: MessageTypes.MessageType): Int8
  {
    MessageTypes.Code(t)
  }

  /** `(byte) type.getCode()` for a serializer type. */
  function SerializerTypeByte(t: SerializerTypes.SerializerType): Int8
  {
    SerializerTypes.Code(t)
  }

  class MessageHeader {
    var magic: Int16
    var version: Int8
    var serializerType: Int8
    var messageType: Int8
    var status: Int8
    var requestId: Int64
    var bodyLength: Int32

    /** The header's current field values. */
    function Value(): Header
      reads this
    {
      Header(magic, version, serializerType, messageType, status, requestId, bodyLength)
    }

    constructor ()
      ensures Value() == FreshHeader()
    {
      magic := DEFAULT_MAGIC;
      version := DEFAULT_VERSION;
      serializerType := 0;
      messageType := 0;
      status := 0;
      requestId := 0;
      bodyLength := 0;
    }

    method SetMagic(m: Int16)
      modifies this
      ensures Value() == old(Value()).(magic := m)
    {
      magic := m;
    }

    method SetVersion(v: Int8)
      modifies this
      ensures Value() == old(Value()).(version := v)
    {
      version := v;
    }

    method SetSerializerType(t: Int8)
      modifies this
      ensures Value() == old(Value()).(serializerType := t)
    {
      serializerType := t;
    }

    /** `setSerializerType(SerializerType)`: stores the constant's code. */
    method SetSerializerTypeOf(t: SerializerTypes.SerializerType)
      modifies this
      ensures Value() == old(Value()).(serializerType := SerializerTypes.Code(t))
    {
      serializerType := SerializerTypeByte(t);
    }

    method SetMessageType(t: Int8)
      modifies this
      ensures Value() == old(Value()).(messageType := t)
    {
      messageType := t;
    }

    /** `setMessageType(MessageType)`: stores the constant's code. */
    method SetMessageTypeOf(t: MessageTypes.MessageType)
      modifies this
      ensures Value() == old(Value()).(messageType := MessageTypes.Code(t))
    {
      messageType := MessageTypeByte(t);
    }

    method SetStatus(s: Int8)
      modifies this
      ensures Value() == old(Value()).(status := s)
    {
      status := s;
    }

    method SetRequestId(id: Int64)
      modifies this
      ensures Value() == old(Value()).(requestId := id)
    {
      requestId := id;
    }

    method SetBodyLength(n: Int32)
      modifies this
      ensures Value() == old(Value()).(bodyLength := n)
    {
      bodyLength := n;
    }
  }
}
