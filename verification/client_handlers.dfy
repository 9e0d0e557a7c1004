/**
 * The two inbound handlers at the end of the client pipeline:
 * `RpcClientHandler` completes the future a response answers, and
 * `RpcClientHeartbeatHandler` sends a heartbeat request whenever the
 * channel has been idle for writing.
 */
module ClientHandlers {
  import opened Wrappers
  import opened JavaLang
  import opened Protocol
  import MessageTypes
  import SerializerTypes
  import opened RpcModel
  import opened Serialization
  import opened Transport
  import Encoder
  import Decoder

  // ---------------------------------------------------------------------------
  // Responses

  /**
   * What `channelRead0` makes of a RESPONSE frame: the serializer the
   * header names, the deserialised body, and the unboxing of a null `code`
   * that the monitor's success test performs when the response carries a
   * service name.
   */
  function ReadResponse(factory: SerializerFactory, codecs: Codecs, msg: Message): (r: Result<RpcResponse, Exception>)
    reads factory
    ensures r.Success? ==>
      && SerializerTypes.ValueOf(msg.header.serializerType).Success?
      && SerializerTypes.ValueOf(msg.header.serializerType).value in factory.registry
      && (r.value.serviceName.Some? ==> r.value.code.Some?)
    ensures SerializerTypes.ValueOf(msg.header.serializerType).Failure? ==>
      r == Failure(SerializerTypes.ValueOf(msg.header.serializerType).error)
  {
    var t :- SerializerTypes.ValueOf(msg.header.serializerType);
    var s :- factory.GetSerializer(t);
    var resp :- codecs.deserializeResponse(s, msg.body);
    if resp.serviceName.Some? && resp.code.None? then Failure(Exception(NullPointerException, None, None))
    else Success(resp)
  }

  class RpcClientHandler {
    /** The client's `pendingRequests`. */
    const pending: PendingTable
    const factory: SerializerFactory
    const codecs: Codecs

    constructor (pending: PendingTable, factory: SerializerFactory, codecs: Codecs)
      ensures this.pending == pending && this.factory == factory && this.codecs == codecs
    {
      this.pending := pending;
      this.factory := factory;
      this.codecs := codecs;
    }

    /**
     * `channelRead0(ctx, msg)`, with `exceptionCaught` closing the channel
     * when it throws. Only RESPONSE frames are looked at. A response
     * removes its id from the table before anything can fail, so a response
     * that cannot be read leaves its future pending forever.
     */
    method ChannelRead(ctx: Channel, msg: Message) returns (thrown: Option<Exception>)
      modifies pending, ctx
      modifies if msg.header.requestId in pending.entries then {pending.entries[msg.header.requestId]} else {}
      ensures ctx.outbound == old(ctx.outbound)
      ensures msg.header.messageType != MessageTypeByte(MessageTypes.RESPONSE) ==>
        && pending.entries == old(pending.entries)
        && thrown.None? && ctx.active == old(ctx.active)
      ensures msg.header.messageType == MessageTypeByte(MessageTypes.RESPONSE) ==>
        pending.entries == old(pending.entries) - {msg.header.requestId}
      ensures msg.header.requestId !in old(pending.entries) ==> thrown.None? && ctx.active == old(ctx.active)
      ensures msg.header.messageType == MessageTypeByte(MessageTypes.RESPONSE) &&
              msg.header.requestId in old(pending.entries) ==>
        var f := old(pending.entries)[msg.header.requestId];
        var r := ReadResponse(factory, codecs, msg);
        && (r.Success? ==>
              && thrown.None? && ctx.active == old(ctx.active)
              && f.result == (if old(f.result).None? then Some(r.value) else old(f.result)))
        && (r.Failure? ==>
              thrown == Some(r.error) && !ctx.active && f.result == old(f.result))
    {
      thrown := None;
      if msg.header.messageType == MessageTypeByte(MessageTypes.HEARTBEAT_RESPONSE) {
        return;
      }
      if msg.header.messageType == MessageTypeByte(MessageTypes.RESPONSE) {
        var future := pending.Remove(msg.header.requestId);
        if future.Some? {
          var response := ReadResponse(factory, codecs, msg);
          if response.Failure? {
            thrown := Some(response.error);
            ctx.Close();
            return;
          }
          var _ := future.value.Complete(response.value);
        }
      }
    }
  }

  /**
   * The same response frame delivered twice: the second delivery finds no
   * pending entry, throws nothing, and leaves the future as the first
   * delivery left it, so a future is completed at most once.
   */
  method DeliverTwice(h: RpcClientHandler, ctx: Channel, msg: Message)
    returns (first: Option<Exception>, second: Option<Exception>)
    requires msg.header.messageType == MessageTypeByte(MessageTypes.RESPONSE)
    requires msg.header.requestId in h.pending.entries
    modifies h.pending, ctx, h.pending.entries[msg.header.requestId]
    ensures msg.header.requestId !in h.pending.entries
    ensures second.None?
    ensures var f := old(h.pending.entries)[msg.header.requestId];
      var r := ReadResponse(h.factory, h.codecs, msg);
      f.result == (if r.Success? && old(f.result).None? then Some(r.value) else old(f.result))
  {
    ghost var f := h.pending.entries[msg.header.requestId];
    first := h.ChannelRead(ctx, msg);
    ghost var afterFirst := f.result;
    second := h.ChannelRead(ctx, msg);
    assert f.result == afterFirst;
  }

  // ---------------------------------------------------------------------------
  // Heartbeats

  datatype IdleState = READER_IDLE | WRITER_IDLE | ALL_IDLE

  /** A user event: an `IdleStateEvent`, or any other event object. */
  datatype UserEvent = IdleStateEvent(state: IdleState) | OtherEvent(id: nat)

  /** The heartbeat request: a fresh header with the id, HEARTBEAT_REQUEST and body length 0, and a null body. */
  function HeartbeatRequest(id: Int64): Message
  {
    Message(FreshHeader().(requestId := id, messageType := MessageTypeByte(MessageTypes.HEARTBEAT_REQUEST),
                           bodyLength := 0), None)
  }

  /**
   * A heartbeat request is well formed and encodes as a bare 18-byte header;
   * the server's decoder hands it on with an empty body, as a
   * HEARTBEAT_REQUEST. Its serializer byte names no serializer.
   */
  lemma HeartbeatFrame(id: Int64, rest: seq<Byte>)
    ensures Decoder.WellFormed(HeartbeatRequest(id))
    ensures |Encoder.EncodeFrame(HeartbeatRequest(id))| == Decoder.HEADER_LENGTH == 18
    ensures Decoder.DecodeStep(Encoder.EncodeFrame(HeartbeatRequest(id)) + rest) ==
      Decoder.Decoded(Message(HeartbeatRequest(id).header, Some([])))
    ensures MessageTypes.ValueOf(HeartbeatRequest(id).header.messageType) == Success(MessageTypes.HEARTBEAT_REQUEST)
    ensures SerializerTypes.ValueOf(HeartbeatRequest(id).header.serializerType).Failure?
  {
    Decoder.RoundTrip(HeartbeatRequest(id), rest);
    Encoder.FrameLayout(HeartbeatRequest(id));
    MessageTypes.ValueOfCode(MessageTypes.HEARTBEAT_REQUEST);
  }

  class RpcClientHeartbeatHandler {
    /** This handler's own counter, independent of the client's request ids. */
    var requestIdGenerator: Int64

    constructor ()
      ensures requestIdGenerator == 0
    {
      requestIdGenerator := 0;
    }

    /**
     * `userEventTriggered(ctx, evt)`: a writer-idle event sends a heartbeat
     * request under the next id of this handler's counter; reader-idle and
     * all-idle events do nothing; any other event is passed on.
     */
    method UserEventTriggered(ctx: Channel, evt: UserEvent) returns (forwarded: Option<UserEvent>)
      modifies this, ctx
      ensures ctx.active == old(ctx.active)
      ensures forwarded == (if evt.OtherEvent? then Some(evt) else None)
      ensures evt == IdleStateEvent(WRITER_IDLE) ==>
        && requestIdGenerator == IncrementLong(old(requestIdGenerator))
        && ctx.outbound == old(ctx.outbound) + (if ctx.active then [HeartbeatRequest(requestIdGenerator)] else [])
      ensures evt != IdleStateEvent(WRITER_IDLE) ==>
        requestIdGenerator == old(requestIdGenerator) && ctx.outbound == old(ctx.outbound)
    {
      forwarded := None;
      if evt.IdleStateEvent? {
        if evt.state == WRITER_IDLE {
          var header := new MessageHeader();
          requestIdGenerator := IncrementLong(requestIdGenerator);
          header.SetRequestId(requestIdGenerator);
          header.SetMessageType(MessageTypeByte(MessageTypes.HEARTBEAT_REQUEST));
          header.SetBodyLength(0);
          ctx.WriteAndFlush(Message(header.Value(), None));
        }
      } else {
        forwarded := Some(evt);
      }
    }
  }
}
