/**
 * `RpcServerHandler`: answers heartbeat requests, and answers each request
 * frame with a response frame built from the outcome of dispatching the
 * request to a registered service bean.
 */
module Server {
  import opened Wrappers
  import opened JavaLang
  import opened Protocol
  import MessageTypes
  import SerializerTypes
  import opened RpcModel
  import opened Serialization
  import opened Transport
  import Encoder
  import Decoder
  import ClientHandlers

  /**
   * `Class.isInstance` on a non-null object. For a primitive class
   * (`int.class` and the like, as `getParameterTypes` reports them) it is
   * false for every object, boxed values included, so a service method with
   * a primitive parameter fails the argument check whatever is passed.
   */
  type InstanceTest = (JavaClass, Value) -> bool

  /**
   * `getMethod(methodName, parameterTypes)` on the bean's class followed by
   * `method.invoke(bean, parameters)`: the method's result, or whatever
   * either of them throws.
   */
  type Invoker = (Value, RpcRequest) -> Result<Option<Value>, Exception>

  /** `String.format("%s:%s:%s", interfaceName, version, group)`. */
  function ServiceKey(request: RpcRequest): string
  {
    request.interfaceName + ":" + request.version + ":" + request.group
  }

  /** Argument `i` passes the check: it is not null and is an instance of its declared type. */
  predicate Accepts(isInstance: InstanceTest, t: JavaClass, arg: Option<Value>)
  {
    arg.Some? && isInstance(t, arg.value)
  }

  /** The first index from `from` on whose argument fails the check, if any. */
  function FirstMismatch(isInstance: InstanceTest, types: seq<JavaClass>, args: seq<Option<Value>>, from: nat)
    : (r: Option<nat>)
    requires |types| == |args| && from <= |types|
    ensures r.Some? ==>
      && from <= r.value < |types|
      && !Accepts(isInstance, types[r.value], args[r.value])
      && forall j :: from <= j < r.value ==> Accepts(isInstance, types[j], args[j])
    ensures r.None? ==> forall j :: from <= j < |types| ==> Accepts(isInstance, types[j], args[j])
    decreases |types| - from
  {
    if from == |types| then None
    else if !Accepts(isInstance, types[from], args[from]) then Some(from)
    else FirstMismatch(isInstance, types, args, from + 1)
  }

  /** What the check of argument `i` throws: `getClass()` of a null argument, or the mismatch message. */
  function MismatchError(types: seq<JavaClass>, args: seq<Option<Value>>, i: nat): Exception
    requires i < |types| && i < |args|
  {
    if args[i].None? then Exception(NullPointerException, None, None)
    else Throw(IllegalArgumentException,
               "第" + IntToString(i + 1) + "个参数类型不匹配，期望：" + types[i] + "，实际：" + args[i].value.className)
  }

  /** `handleRequest(request)`: the checks in order, and the invocation only when they all pass. */
  function Handle(services: map<string, Value>, isInstance: InstanceTest, invoke: Invoker, request: RpcRequest)
    : (r: Result<Option<Value>, Exception>)
    ensures Dispatchable(services, isInstance, request) ==> r == invoke(services[ServiceKey(request)], request)
    ensures !Dispatchable(services, isInstance, request) ==> r.Failure?
  {
    if ServiceKey(request) !in services then
      Failure(Throw(RuntimeException, "服务不存在: 服务名=" + request.interfaceName + ", 版本=" + request.version +
                                      ", 分组=" + request.group))
    else if request.parameters.None? then
      Failure(Exception(NullPointerException, None, None))
    else if |request.parameterTypes| != |request.parameters.value| then
      Failure(Throw(IllegalArgumentException,
                    "参数数量不匹配，期望" + IntToString(|request.parameterTypes|) + "个，实际" +
                    IntToString(|request.parameters.value|) + "个"))
    else
      match FirstMismatch(isInstance, request.parameterTypes, request.parameters.value, 0)
      case Some(i) => Failure(MismatchError(request.parameterTypes, request.parameters.value, i))
      case None => invoke(services[ServiceKey(request)], request)
  }

  /** The request passes every check of `handleRequest`. */
  predicate Dispatchable(services: map<string, Value>, isInstance: InstanceTest, request: RpcRequest)
  {
    && ServiceKey(request) in services
    && request.parameters.Some?
    && |request.parameterTypes| == |request.parameters.value|
    && forall j :: 0 <= j < |request.parameterTypes| ==>
         Accepts(isInstance, request.parameterTypes[j], request.parameters.value[j])
  }

  /**
   * The bean is invoked exactly when the request passes every check, and
   * then its outcome is the result; otherwise the result is a failure that
   * does not depend on the bean at all.
   */
  lemma InvokedExactlyWhenDispatchable(services: map<string, Value>, isInstance: InstanceTest,
                                       invoke: Invoker, other: Invoker, request: RpcRequest)
    ensures Dispatchable(services, isInstance, request) ==>
      Handle(services, isInstance, invoke, request) == invoke(services[ServiceKey(request)], request)
    ensures !Dispatchable(services, isInstance, request) ==>
      && Handle(services, isInstance, invoke, request).Failure?
      && Handle(services, isInstance, invoke, request) == Handle(services, isInstance, other, request)
  {
    if ServiceKey(request) in services && request.parameters.Some? &&
       |request.parameterTypes| == |request.parameters.value| {
      var m := FirstMismatch(isInstance, request.parameterTypes, request.parameters.value, 0);
      if m.Some? {
        assert !Dispatchable(services, isInstance, request);
      }
    }
  }

  /**
   * `handleRequest`, with its validation loop: the key lookup, the arity
   * check, then each argument in index order, stopping at the first one
   * that is null or of the wrong type.
   */
  method HandleRequest(services: map<string, Value>, isInstance: InstanceTest, invoke: Invoker, request: RpcRequest)
    returns (result: Result<Option<Value>, Exception>)
    ensures result == Handle(services, isInstance, invoke, request)
  {
    var key := request.interfaceName + ":" + request.version + ":" + request.group;
    if key !in services {
      return Failure(Throw(RuntimeException, "服务不存在: 服务名=" + request.interfaceName + ", 版本=" +
                                             request.version + ", 分组=" + request.group));
    }
    var bean := services[key];
    var paramTypes := request.parameterTypes;
    if request.parameters.None? {
      return Failure(Exception(NullPointerException, None, None));
    }
    var parameters := request.parameters.value;
    if |paramTypes| != |parameters| {
      return Failure(Throw(IllegalArgumentException,
                           "参数数量不匹配，期望" + IntToString(|paramTypes|) + "个，实际" +
                           IntToString(|parameters|) + "个"));
    }
    for i := 0 to |paramTypes|
      invariant FirstMismatch(isInstance, paramTypes, parameters, 0) ==
                FirstMismatch(isInstance, paramTypes, parameters, i)
    {
      if parameters[i].None? || !isInstance(paramTypes[i], parameters[i].value) {
        if parameters[i].None? {
          return Failure(Exception(NullPointerException, None, None));
        }
        return Failure(Throw(IllegalArgumentException,
                             "第" + IntToString(i + 1) + "个参数类型不匹配，期望：" + paramTypes[i] +
                             "，实际：" + parameters[i].value.className));
      }
    }
    result := invoke(bean, request);
  }

  // ---------------------------------------------------------------------------
  // Frames

  /** The heartbeat answer: a fresh header with the same id, HEARTBEAT_RESPONSE, body length 0, and a null body. */
  function HeartbeatResponse(id: Int64): Message
  {
    Message(FreshHeader().(requestId := id, messageType := MessageTypeByte(MessageTypes.HEARTBEAT_RESPONSE),
                           bodyLength := 0), None)
  }

  /** The answer to a request frame: the same id and serializer byte, RESPONSE, and the body's length. */
  function ResponseMessage(id: Int64, serializerType: Int8, body: JavaBytes): Message
  {
    Message(FreshHeader().(requestId := id, serializerType := serializerType,
                           messageType := MessageTypeByte(MessageTypes.RESPONSE), bodyLength := |body|),
            Some(body))
  }

  /** The response object for a dispatch outcome: success or fail, both naming the service. */
  function ResponseFor(request: RpcRequest, outcome: Result<Option<Value>, Exception>): (r: RpcResponse)
    ensures r.requestId == request.requestId && r.serviceName == Some(request.interfaceName)
    ensures outcome.Success? ==> r.code == Some(SUCCESS_CODE) && r.data == outcome.value
    ensures outcome.Failure? ==> r.code == Some(FAIL_CODE) && r.message == outcome.error.message && r.data.None?
  {
    match outcome
    case Success(v) => SuccessFor(v, request.requestId, Some(request.interfaceName))
    case Failure(e) => FailFor(e.message, request.requestId, Some(request.interfaceName))
  }

  class RpcServerHandler {
    /** The registered service beans, by `name:version:group` key. */
    const services: map<string, Value>
    const factory: SerializerFactory
    const codecs: Codecs
    const isInstance: InstanceTest
    const invoke: Invoker

    constructor (services: map<string, Value>, factory: SerializerFactory, codecs: Codecs,
                 isInstance: InstanceTest, invoke: Invoker)
      ensures this.services == services && this.factory == factory && this.codecs == codecs
      ensures this.isInstance == isInstance && this.invoke == invoke
    {
      this.services := services;
      this.factory := factory;
      this.codecs := codecs;
      this.isInstance := isInstance;
      this.invoke := invoke;
    }

    /**
     * What a REQUEST frame leads to: the response frame, or the exception
     * that escapes `channelRead0` because it was thrown outside the
     * dispatch's try block (serializer lookup, deserialisation,
     * serialisation of the response).
     */
    function Serve(msg: Message): (r: Result<Message, Exception>)
      reads factory
      ensures r.Success? ==>
        && r.value.header.requestId == msg.header.requestId
        && r.value.header.serializerType == msg.header.serializerType
        && MessageTypes.ValueOf(r.value.header.messageType) == Success(MessageTypes.RESPONSE)
        && Decoder.WellFormed(r.value)
      ensures SerializerTypes.ValueOf(msg.header.serializerType).Failure? ==> r.Failure?
    {
      MessageTypes.ValueOfCode(MessageTypes.RESPONSE);
      var t :- SerializerTypes.ValueOf(msg.header.serializerType);
      var s :- factory.GetSerializer(t);
      var request :- codecs.deserializeRequest(s, msg.body);
      var response := ResponseFor(request, Handle(services, isInstance, invoke, request));
      var body :- codecs.serializeResponse(s, response);
      Success(ResponseMessage(msg.header.requestId, msg.header.serializerType, body))
    }

    /**
     * `channelRead0(ctx, msg)`, with `exceptionCaught` closing the channel
     * when it throws. A heartbeat request is echoed without looking at the
     * services; a request is answered with its response frame; anything
     * else is ignored. A failed dispatch is an ordinary fail response and
     * keeps the channel open.
     */
    method ChannelRead(ctx: Channel, msg: Message) returns (thrown: Option<Exception>)
      modifies ctx
      ensures msg.header.messageType == MessageTypeByte(MessageTypes.HEARTBEAT_REQUEST) ==>
        && thrown.None? && ctx.active == old(ctx.active)
        && ctx.outbound == old(ctx.outbound) + (if ctx.active then [HeartbeatResponse(msg.header.requestId)] else [])
      ensures msg.header.messageType == MessageTypeByte(MessageTypes.REQUEST) ==>
        && (Serve(msg).Success? ==>
              && thrown.None? && ctx.active == old(ctx.active)
              && ctx.outbound == old(ctx.outbound) + (if ctx.active then [Serve(msg).value] else []))
        && (Serve(msg).Failure? ==>
              thrown == Some(Serve(msg).error) && !ctx.active && ctx.outbound == old(ctx.outbound))
      ensures msg.header.messageType != MessageTypeByte(MessageTypes.HEARTBEAT_REQUEST) &&
              msg.header.messageType != MessageTypeByte(MessageTypes.REQUEST) ==>
        thrown.None? && ctx.active == old(ctx.active) && ctx.outbound == old(ctx.outbound)
    {
      thrown := None;
      var messageType := msg.header.messageType;
      var serializerType := msg.header.serializerType;
      var requestId := msg.header.requestId;

      if messageType == MessageTypeByte(MessageTypes.HEARTBEAT_REQUEST) {
        var header := new MessageHeader();
        header.SetRequestId(requestId);
        header.SetMessageType(MessageTypeByte(MessageTypes.HEARTBEAT_RESPONSE));
        header.SetBodyLength(0);
        ctx.WriteAndFlush(Message(header.Value(), None));
        return;
      }

      if messageType == MessageTypeByte(MessageTypes.REQUEST) {
        var t := SerializerTypes.ValueOf(serializerType);
        if t.Failure? {
          thrown := Some(t.error);
          ctx.Close();
          return;
        }
        var serializer := factory.GetSerializer(t.value);
        if serializer.Failure? {
          thrown := Some(serializer.error);
          ctx.Close();
          return;
        }
        var request := codecs.deserializeRequest(serializer.value, msg.body);
        if request.Failure? {
          thrown := Some(request.error);
          ctx.Close();
          return;
        }
        var outcome := HandleRequest(services, isInstance, invoke, request.value);
        var response := ResponseFor(request.value, outcome);
        var responseBody := codecs.serializeResponse(serializer.value, response);
        if responseBody.Failure? {
          thrown := Some(responseBody.error);
          ctx.Close();
          return;
        }
        var header := new MessageHeader();
        header.SetRequestId(requestId);
        header.SetSerializerType(serializerType);
        header.SetMessageType(MessageTypeByte(MessageTypes.RESPONSE));
        header.SetBodyLength(|responseBody.value|);
        ctx.WriteAndFlush(Message(header.Value(), Some(responseBody.value)));
      }
    }
  }

  /**
   * The heartbeat answer is a bare 18-byte frame that the client's decoder
   * hands on as a HEARTBEAT_RESPONSE under the same id.
   */
  lemma HeartbeatEcho(id: Int64, rest: seq<Byte>)
    ensures Decoder.WellFormed(HeartbeatResponse(id))
    ensures |Encoder.EncodeFrame(HeartbeatResponse(id))| == 18
    ensures Decoder.DecodeStep(Encoder.EncodeFrame(HeartbeatResponse(id)) + rest) ==
      Decoder.Decoded(Message(HeartbeatResponse(id).header, Some([])))
    ensures MessageTypes.ValueOf(HeartbeatResponse(id).header.messageType) ==
      Success(MessageTypes.HEARTBEAT_RESPONSE)
    ensures HeartbeatResponse(id).header.requestId == id
  {
    Decoder.RoundTrip(HeartbeatResponse(id), rest);
    Encoder.FrameLayout(HeartbeatResponse(id));
    MessageTypes.ValueOfCode(MessageTypes.HEARTBEAT_RESPONSE);
  }

  /**
   * End to end: when the serializer's response conversion round-trips, the
   * client handler reads back from the server's answer exactly the response
   * the server built, for the same header id, and never trips over a null
   * code, since the server always sets one.
   */
  lemma ClientReadsServerResponse(h: RpcServerHandler, msg: Message)
    requires h.Serve(msg).Success?
    requires forall s: Serializer, r: RpcResponse ::
      h.codecs.serializeResponse(s, r).Success? ==>
        h.codecs.deserializeResponse(s, Some(h.codecs.serializeResponse(s, r).value)) == Success(r)
    ensures
      var t := SerializerTypes.ValueOf(msg.header.serializerType).value;
      var s := h.factory.GetSerializer(t).value;
      var request := h.codecs.deserializeRequest(s, msg.body).value;
      var response := ResponseFor(request, Handle(h.services, h.isInstance, h.invoke, request));
      && h.Serve(msg).value.header.requestId == msg.header.requestId
      && ClientHandlers.ReadResponse(h.factory, h.codecs, h.Serve(msg).value) == Success(response)
  {
  }
}
